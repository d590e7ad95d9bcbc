/** Full expansion with calls of defines with parameters: argument splitting,
    substitution and ##. */
module Calls {
  import opened Options
  import opened Tokens
  import opened Macros
  import opened Precompiler
  import opened Streams
  import opened Expansion

  // ------------------------------------------------------------- arguments

  function DepthBehind(t: Token, d: int): int {
    if t.str == "(" then d + 1 else if t.str == ")" then d - 1 else d
  }

  function EndDepth(ts: seq<Token>, d: int): int {
    if ts == [] then d else EndDepth(ts[1..], DepthBehind(ts[0], d))
  }

  /** From depth `d` on no comma outside inner parentheses, and none of those that
      close the call. */
  predicate StaysInside(ts: seq<Token>, d: int) {
    if ts == [] then d > 0
    else d > 0 && (ts[0].str == "," ==> d > 1) && StaysInside(ts[1..], DepthBehind(ts[0], d))
  }

  lemma {:induction false} InsideConcat(ts: seq<Token>, us: seq<Token>, d: int)
    ensures EndDepth(ts + us, d) == EndDepth(us, EndDepth(ts, d))
    ensures StaysInside(ts + us, d) <==> StaysInside(ts, d) && StaysInside(us, EndDepth(ts, d))
    decreases ts
  {
    if ts == [] {
      assert ts + us == us;
    } else {
      assert (ts + us)[0] == ts[0] && (ts + us)[1..] == ts[1..] + us;
      InsideConcat(ts[1..], us, DepthBehind(ts[0], d));
    }
  }

  /** No define has the name of a parenthesis or a comma, as no name has. */
  ghost predicate ProperNames(defs: map<string, Define>) {
    "(" !in defs && ")" !in defs && "," !in defs
  }

  // -------------------------------------------------------- full expansion

  /** A call behind the name: its arguments, and the tokens between and around them. */
  datatype CallText = CallText(open: Token, given: seq<seq<Token>>, commas: seq<Token>, close: Token)

  function CallTokens(call: CallText): seq<Token> {
    [call.open] + Separated(call.given, call.commas) + [call.close]
  }

  /** The arguments of a call with the commas between them. */
  function Separated(given: seq<seq<Token>>, commas: seq<Token>): seq<Token> {
    if given == [] then [] else if commas == [] then given[0]
        else given[0] + [commas[0]] + Separated(given[1..], commas[1..])
  }

  function Empties(n: nat): seq<seq<Token>> { seq(n, _ => []) }

  /** The missing arguments are empty. */
  function FillUp(args: seq<seq<Token>>, n: nat): (r: seq<seq<Token>>)
    requires |args| <= n
    ensures |r| == n
  {
    args + Empties(n - |args|)
  }

  /** The full expansion of tokens, with at most `depth` names expanded. What a name is
      replaced by is read again together with the tokens behind it, so that a call may
      begin in the one and end in the other. In the arguments of a call, `inside`, # and
      $ mean nothing. */
  ghost function Expanded(defs: map<string, Define>, ts: seq<Token>, inside: bool, depth: nat): Option<seq<Token>>
    decreases depth, 0, |ts|
  {
    if ts == [] then Some([])
    else if !inside && IsDirective(ts[0]) then None
    else if !IsDefineName(defs, ts[0]) then Both(Some([ts[0]]), Expanded(defs, ts[1..], inside, depth))
    else if depth == 0 then None
    else
      match Spread(defs, defs[ts[0].str], ts[1..], depth - 1)
      case None => None
      case Some((body, left)) => Expanded(defs, body + left, inside, depth - 1)
  }

  function Both(a: Option<seq<Token>>, b: Option<seq<Token>>): Option<seq<Token>> {
    if a.Some? && b.Some? then Some(a.value + b.value) else None
  }

  ghost function Prescanned(defs: map<string, Define>, ts: seq<Token>, depth: nat): seq<Token>
    decreases depth, 1
  {
    var r := Expanded(defs, ts, true, depth);
    if r.None? then [] else r.value
  }

  /** The full expansions of the arguments. */
  ghost function PrescanAll(defs: map<string, Define>, given: seq<seq<Token>>, depth: nat): seq<seq<Token>>
    decreases depth, 2
  {
    seq(|given|, i requires 0 <= i < |given| => Prescanned(defs, given[i], depth))
  }

  /** An argument whose full expansion has balanced parentheses and no comma outside
      them. */
  ghost predicate IsArgument(defs: map<string, Define>, ts: seq<Token>, depth: nat)
    decreases depth, 1
  {
    var r := Expanded(defs, ts, true, depth);
    r.Some? && StaysInside(r.value, 1) && EndDepth(r.value, 1) == 1
  }

  ghost predicate IsCall(defs: map<string, Define>, call: CallText, depth: nat)
    decreases depth, 2
  {
    && |call.given| == |call.commas| + 1
    && call.open.str == "(" && call.close.str == ")" && (forall comma <- call.commas :: comma.str == ",")
    && forall a <- call.given :: IsArgument(defs, a, depth)
  }

  /** The tokens are a call that the define takes. */
  ghost predicate FitsCall(defs: map<string, Define>, d: Define, call: CallText, depth: nat)
    decreases depth, 3
  {
    d.parms != [] && |call.given| <= |d.parms| <= MAX_DEFINEPARMS && ProperNames(defs) && IsCall(defs, call, depth)
  }

  /** What a call with these arguments stands for: the body with every parameter
      replaced by the full expansion of its argument, put into a string behind #, and
      with its ## chains merged; None when using it is an error. */
  ghost function Replacement(defs: map<string, Define>, d: Define, given: seq<seq<Token>>,
          depth: nat): (r: Option<seq<Token>>)
    requires |given| <= |d.parms|
    ensures r.Some? ==> r.value != []
    decreases depth, 3
  {
    var merged := MergePass(Substitute(d.body, d.parms, FillUp(PrescanAll(defs, given, depth), |d.parms|)));
    if merged == Some([]) then None else merged
  }

  /** A call that the define takes stands in front of `left`. */
  ghost predicate CallAhead(defs: map<string, Define>, d: Define, later: seq<Token>, call: CallText, left: seq<Token>,
          depth: nat)
    decreases depth, 4
  {
    |call.given| <= |d.parms| && later == CallTokens(call) + left && FitsCall(defs, d, call, depth)
  }

  ghost function FindCall(defs: map<string, Define>, d: Define, later: seq<Token>,
          depth: nat): (r: Option<(CallText, seq<Token>)>)
    ensures r.Some? ==> CallAhead(defs, d, later, r.value.0, r.value.1, depth) && |r.value.0.given| <= |d.parms|
    decreases depth, 5
  {
    if exists call, left :: CallAhead(defs, d, later, call, left, depth) then
      var call, left :| CallAhead(defs, d, later, call, left, depth);
      Some((call, left))
    else None
  }

  /** What a define is replaced by, and what is left of `later`, the tokens behind its
      name; None is an error. */
  ghost function Spread(defs: map<string, Define>, d: Define, later: seq<Token>,
          depth: nat): (r: Option<(seq<Token>, seq<Token>)>)
    ensures r.Some? ==> |r.value.1| <= |later|
    decreases depth, 6
  {
    if d.parms == [] then
      match BodyOf(d)
      case None => None
      case Some(body) => Some((body, later))
    else
      match FindCall(defs, d, later, depth)
      case None => None
      case Some((call, left)) =>
        match Replacement(defs, d, call.given, depth)
        case None => None
        case Some(body) => Some((body, left))
  }

  /** Enough rounds for reading tokens, with `each` for every one of them, so that the
      calls among them can be read. */
  ghost function Need(defs: map<string, Define>, ts: seq<Token>, each: nat, depth: nat): nat
    decreases depth, 0, |ts|
  {
    if ts == [] then 0
    else if !IsDefineName(defs, ts[0]) || depth == 0 then each + Need(defs, ts[1..], each, depth)
    else
      match Spread(defs, defs[ts[0].str], ts[1..], depth - 1)
      case None => 0
      case Some((body, left)) =>
        each + SpreadNeed(defs, defs[ts[0].str], ts[1..], depth - 1) + Need(defs, body + left, each, depth - 1)
  }

  ghost function SpreadNeed(defs: map<string, Define>, d: Define, later: seq<Token>, depth: nat): nat
    decreases depth, 2
  {
    if d.parms == [] then 0
    else
      match FindCall(defs, d, later, depth)
      case None => 0
      case Some((call, _)) => CallNeed(defs, call.given, depth)
  }

  ghost function CallNeed(defs: map<string, Define>, given: seq<seq<Token>>, depth: nat): nat
    decreases depth, 1, |given|
  {
    if given == [] then 0 else Need(defs, given[0], 1, depth) + 1 + CallNeed(defs, given[1..], depth)
  }

  /** The first token that reading gives, with names expanded on the way to it, and
      what is left behind it; None also for a string, which is joined to what follows. */
  ghost function LookAhead(defs: map<string, Define>, ts: seq<Token>, depth: nat): Option<(Token, seq<Token>)>
    decreases depth
  {
    if ts == [] || IsDirective(ts[0]) then None
    else if !IsDefineName(defs, ts[0]) then if ts[0].typ == TT_STRING then None else Some((ts[0], ts[1..]))
    else if depth == 0 then None
    else
      match Spread(defs, defs[ts[0].str], ts[1..], depth - 1)
      case None => None
      case Some((body, left)) => LookAhead(defs, body + left, depth - 1)
  }

  /** Enough rounds for it. */
  ghost function LookNeed(defs: map<string, Define>, ts: seq<Token>, depth: nat): nat
    decreases depth
  {
    if ts == [] || !IsDefineName(defs, ts[0]) || depth == 0 then 1
    else
      match Spread(defs, defs[ts[0].str], ts[1..], depth - 1)
      case None => 1
      case Some((body, left)) =>
        1 + SpreadNeed(defs, defs[ts[0].str], ts[1..], depth - 1) + LookNeed(defs, body + left, depth - 1)
  }

  /** It is not the name of a define. */
  lemma {:induction false} LookAheadIsPlain(defs: map<string, Define>, ts: seq<Token>, depth: nat)
    requires LookAhead(defs, ts, depth).Some?
    ensures !IsDefineName(defs, LookAhead(defs, ts, depth).value.0)
    decreases depth
  {
    hide Spread;
    if IsDefineName(defs, ts[0]) {
      var (body, left) := Spread(defs, defs[ts[0].str], ts[1..], depth - 1).value;
      LookAheadIsPlain(defs, body + left, depth - 1);
    }
  }

  /** On object-like defines this is the expansion of streams, at some depth, and it
      needs no rounds of its own. */
  lemma {:induction false} ExpandedIsExpand(defs: map<string, Define>, ts: seq<Token>, rest: seq<Token>, inside: bool,
          depth: nat, k: nat)
      returns (m: nat)
    requires Expand(defs, ts, depth).Some?
    ensures Expanded(defs, ts + rest, inside, m + k) == Both(Expand(defs, ts, depth), Expanded(defs, rest, inside, k))
    ensures Need(defs, ts + rest, 0, m + k) == Need(defs, rest, 0, k)
    decreases depth, |ts|
  {
    hide BodyOf, Spread, SpreadNeed;
    if ts == [] {
      m := 0;
      assert ts + rest == rest;
      NothingBefore(Expanded(defs, rest, inside, k));
    } else {
      var (t, later) := (ts[0], ts[1..] + rest);
      assert (ts + rest)[0] == t && (ts + rest)[1..] == later;
      m := ExpandedIsExpand(defs, ts[1..], rest, inside, depth, k);
      if !IsDefineName(defs, t) {
        BothAssociates([t], Expand(defs, ts[1..], depth).value, Expanded(defs, rest, inside, k));
      } else {
        var body := BodyOf(defs[t.str]).value;
        var n := ExpandedIsExpand(defs, body, later, inside, depth - 1, m + k);
        ObjectSpreads(defs, defs[t.str], later, n + m + k);
        BothAssociates(Expand(defs, body, depth - 1).value, Expand(defs, ts[1..], depth).value,
            Expanded(defs, rest, inside, k));
        m := n + m + 1;
      }
    }
  }

  lemma NothingBefore(b: Option<seq<Token>>)
    ensures Both(Some([]), b) == b
  {
    if b.Some? { assert [] + b.value == b.value; }
  }

  lemma BothAssociates(a: seq<Token>, b: seq<Token>, c: Option<seq<Token>>)
    ensures Both(Some(a), Both(Some(b), c)) == Both(Some(a + b), c)
  {
    if c.Some? { assert a + (b + c.value) == (a + b) + c.value; }
  }

  lemma ObjectSpreads(defs: map<string, Define>, d: Define, later: seq<Token>, depth: nat)
    requires BodyOf(d).Some?
    ensures Spread(defs, d, later, depth) == Some((BodyOf(d).value, later)) && SpreadNeed(defs, d, later, depth) == 0
  {
    assert d.parms == [];
  }

  /** The result is fully expanded. */
  lemma {:induction false} ExpandedLeavesNoDefine(defs: map<string, Define>, ts: seq<Token>, inside: bool, depth: nat)
    requires Expanded(defs, ts, inside, depth).Some?
    ensures forall t <- Expanded(defs, ts, inside, depth).value :: !IsDefineName(defs, t) && (inside || !IsDirective(t))
    decreases depth, |ts|
  {
    hide Spread;
    if ts != [] {
      if !IsDefineName(defs, ts[0]) {
        ExpandedLeavesNoDefine(defs, ts[1..], inside, depth);
      } else {
        var (body, left) := Spread(defs, defs[ts[0].str], ts[1..], depth - 1).value;
        ExpandedLeavesNoDefine(defs, body + left, inside, depth - 1);
      }
    }
  }

  // --------------------------------------------------- reading arguments

  /** Reading one plain token of an argument. */
  lemma StoresToken(s: Source, c: Context, t: Token, ts: seq<Token>, args: seq<seq<Token>>, k: nat, d: nat, fuel: nat)
    requires At(s, c, [t] + ts) && k < |args| && d > 0 && !IsDefineName(c.defs, t) && fuel > 0
    requires (t.str == "," ==> d > 1) && DepthBehind(t, d) > 0
    ensures ReadSourceToken(s).Got? && At(ReadSourceToken(s).src, c, ts)
    ensures ReadArguments(s, args, k, d, fuel)
         == ReadArguments(ReadSourceToken(s).src, AppendTo(args, k, t), k, DepthBehind(t, d), fuel - 1)
  {
    ReadsNext(s, c, t, ts);
  }

  /** `used` rounds, of at least `need` there are, store `out` behind what the argument
      holds, and go from depth `d` to where `out` leads. */
  ghost predicate Stores(s: Source, s': Source, args: seq<seq<Token>>, k: nat, d: int, out: seq<Token>, used: nat,
          need: nat)
  {
    && Valid(s) && Valid(s') && k < |args| && d > 0 && EndDepth(out, d) > 0 && used <= need
    && forall fuel {:trigger ReadArguments(s, args, k, d, fuel)} :: fuel >= need ==>
         ReadArguments(s, args, k, d, fuel)
             == ReadArguments(s', args[k := args[k] + out], k, EndDepth(out, d), fuel - used)
  }

  lemma StoresNothing(s: Source, args: seq<seq<Token>>, k: nat, d: int)
    requires Valid(s) && k < |args| && d > 0
    ensures Stores(s, s, args, k, d, [], 0, 0)
  {
    assert args[k] + [] == args[k] && args[k := args[k]] == args;
  }

  lemma StoresOne(s: Source, c: Context, t: Token, ts: seq<Token>, args: seq<seq<Token>>, k: nat, d: int)
    requires At(s, c, [t] + ts) && k < |args| && !IsDefineName(c.defs, t) && StaysInside([t], d)
    ensures ReadSourceToken(s).Got? && At(ReadSourceToken(s).src, c, ts)
    ensures Stores(s, ReadSourceToken(s).src, args, k, d, [t], 1, 1)
  {
    hide ReadArguments;
    ReadsNext(s, c, t, ts);
    OneInside(t, d);
    forall fuel: nat | fuel >= 1
      ensures ReadArguments(s, args, k, d, fuel)
           == ReadArguments(ReadSourceToken(s).src, args[k := args[k] + [t]], k, EndDepth([t], d), fuel - 1)
    {
      StoresToken(s, c, t, ts, args, k, d, fuel);
    }
  }

  lemma StoresTogether(s: Source, s1: Source, s2: Source, args: seq<seq<Token>>, k: nat, d: int,
                       a: seq<Token>, b: seq<Token>, m: nat, n: nat, needs: nat, more: nat)
    requires Stores(s, s1, args, k, d, a, m, needs)
    requires Stores(s1, s2, args[k := args[k] + a], k, EndDepth(a, d), b, n, more)
    ensures Stores(s, s2, args, k, d, a + b, m + n, needs + more)
  {
    hide ReadArguments;
    InsideConcat(a, b, d);
    assert args[k] + (a + b) == (args[k] + a) + b;
    assert args[k := args[k] + a][k := (args[k] + a) + b] == args[k := args[k] + (a + b)];
    forall fuel | fuel >= needs + more
      ensures ReadArguments(s, args, k, d, fuel)
           == ReadArguments(s2, args[k := args[k] + (a + b)], k, EndDepth(a + b, d), fuel - (m + n))
    {
      assert ReadArguments(s, args, k, d, fuel)
          == ReadArguments(s1, args[k := args[k] + a], k, EndDepth(a, d), fuel - m);
    }
  }

  /** Expanding a define from `s` to `s'` takes `need` rounds. */
  ghost predicate Expands(s: Source, d: Define, s': Source, need: nat) {
    && Valid(s) && Valid(s')
    && forall fuel {:trigger ExpandDefineIntoSource(s, d, fuel)} :: fuel >= need ==>
        ExpandDefineIntoSource(s, d, fuel) == Ok(s')
  }

  /** The name of a define in an argument: expanding it stores nothing itself. */
  lemma StoresExpanded(s: Source, c: Context, t: Token, ts: seq<Token>, s1: Source, s2: Source, args: seq<seq<Token>>,
          k: nat, d: int, out: seq<Token>, used: nat, need: nat, more: nat)
    requires At(s, c, [t] + ts) && IsDefineName(c.defs, t) && ProperNames(c.defs)
    requires ReadSourceToken(s).Got? && Expands(ReadSourceToken(s).src, c.defs[t.str], s1, more)
    requires Stores(s1, s2, args, k, d, out, used, need)
    ensures Stores(s, s2, args, k, d, out, 1 + used, 1 + more + need)
  {
    hide ExpandDefineIntoSource;
    ReadsNext(s, c, t, ts);
    forall fuel | fuel >= 1 + more + need
      ensures ReadArguments(s, args, k, d, fuel)
           == ReadArguments(s2, args[k := args[k] + out], k, EndDepth(out, d), fuel - (1 + used))
    {
      assert ExpandDefineIntoSource(ReadSourceToken(s).src, c.defs[t.str], fuel - 1) == Ok(s1);
      assert ReadArguments(s, args, k, d, fuel) == ReadArguments(s1, args, k, d, fuel - 1);
    }
  }

  /** Reading an argument stores its full expansion and stops in front of what
      follows it. */
  lemma {:induction false} ReadsArgument(s: Source, c: Context, ts: seq<Token>, rest: seq<Token>, args: seq<seq<Token>>,
          k: nat, d: int, depth: nat)
      returns (used: nat, s': Source)
    requires At(s, c, ts + rest) && k < |args| && ProperNames(c.defs)
    requires Expanded(c.defs, ts, true, depth).Some? && StaysInside(Expanded(c.defs, ts, true, depth).value, d)
    ensures At(s', c, rest)
    ensures Stores(s, s', args, k, d, Expanded(c.defs, ts, true, depth).value, used, Need(c.defs, ts, 1, depth))
    decreases depth, 0, |ts|
  {
    hide ReadArguments, ReadSourceToken, ProperNames, Spread, SpreadNeed, Stores, StaysInside, EndDepth, At;
    AtIsValid(s, c, ts + rest);
    if ts == [] {
      assert ts + rest == rest;
      InsideNow([], d);
      used, s' := 0, s;
      StoresNothing(s, args, k, d);
    } else {
      var (t, later) := (ts[0], ts[1..]);
      assert ts + rest == [t] + (later + rest);
      if !IsDefineName(c.defs, t) {
        var b := Expanded(c.defs, later, true, depth).value;
        InsideConcat([t], b, d);
        EndIsInside(b, EndDepth([t], d));
        StoresOne(s, c, t, later + rest, args, k, d);
        var n;
        n, s' := ReadsArgument(ReadSourceToken(s).src, c, later, rest, args[k := args[k] + [t]], k, EndDepth([t], d),
            depth);
        StoresTogether(s, ReadSourceToken(s).src, s', args, k, d, [t], b, 1, n, 1, Need(c.defs, later, 1, depth));
        used := 1 + n;
      } else {
        used, s' := ReadsSpread(s, c, t, later, rest, args, k, d, depth);
      }
    }
  }

  /** An argument that starts with the name of a define. */
  lemma {:induction false} ReadsSpread(s: Source, c: Context, t: Token, later: seq<Token>, rest: seq<Token>,
          args: seq<seq<Token>>, k: nat, d: int, depth: nat)
      returns (used: nat, s': Source)
    requires At(s, c, [t] + (later + rest)) && k < |args| && ProperNames(c.defs)
    requires depth > 0 && IsDefineName(c.defs, t) && Spread(c.defs, c.defs[t.str], later, depth - 1).Some?
    requires var (body, left) := Spread(c.defs, c.defs[t.str], later, depth - 1).value;
             var out := Expanded(c.defs, body + left, true, depth - 1);
             out.Some? && StaysInside(out.value, d)
    ensures var (body, left) := Spread(c.defs, c.defs[t.str], later, depth - 1).value;
            && At(s', c, rest)
            && Stores(s, s', args, k, d, Expanded(c.defs, body + left, true, depth - 1).value, used,
                      1 + SpreadNeed(c.defs, c.defs[t.str], later, depth - 1) + Need(c.defs, body + left, 1, depth - 1))
    decreases depth, 0, |later| + 1, 0
  {
    hide ReadArguments, ReadSourceToken, ProperNames, Spread, SpreadNeed, Need, Expanded, Stores, StaysInside, EndDepth,
      At, Expands;
    var d' := c.defs[t.str];
    var (body, left) := Spread(c.defs, d', later, depth - 1).value;
    AtIsValid(s, c, [t] + (later + rest));
    ReadsNext(s, c, t, later + rest);
    var s1 := SpreadStep(ReadSourceToken(s).src, c, d', later, rest, depth - 1);
    assert body + (left + rest) == (body + left) + rest;
    used, s' := ReadsArgument(s1, c, body + left, rest, args, k, d, depth - 1);
    StoresExpanded(s, c, t, later + rest, s1, s', args, k, d, Expanded(c.defs, body + left, true, depth - 1).value,
                   used, Need(c.defs, body + left, 1, depth - 1), SpreadNeed(c.defs, d', later, depth - 1));
    used := 1 + used;
  }

  lemma {:induction false} EndIsInside(ts: seq<Token>, d: int)
    requires StaysInside(ts, d)
    ensures d > 0 && EndDepth(ts, d) > 0
    decreases ts
  {
    if ts != [] { EndIsInside(ts[1..], DepthBehind(ts[0], d)); }
  }

  lemma InsideNow(ts: seq<Token>, d: int)
    requires StaysInside(ts, d)
    ensures d > 0
  {
  }

  lemma OneInside(t: Token, d: int)
    requires StaysInside([t], d)
    ensures d > 0 && (t.str == "," ==> d > 1) && EndDepth([t], d) == DepthBehind(t, d) > 0
  {
    assert [t][1..] == [];
  }

  lemma StoreArgument(done: seq<seq<Token>>, a: seq<Token>, n: nat)
    requires |done| < n
    ensures var args := done + Empties(n - |done|);
            args[|done| := args[|done|] + a] == done + [a] + Empties(n - |done| - 1)
  {
    assert [] + a == a;
  }

  lemma ReadsClose(s: Source, c: Context, close: Token, rest: seq<Token>, args: seq<seq<Token>>, k: nat, fuel: nat)
    requires At(s, c, [close] + rest) && close.str == ")" && k < |args| && fuel > 0
    ensures ReadSourceToken(s).Got? && At(ReadSourceToken(s).src, c, rest)
    ensures ReadArguments(s, args, k, 1, fuel) == Arguments(args, ReadSourceToken(s).src)
  {
    ReadsNext(s, c, close, rest);
  }

  lemma ReadsComma(s: Source, c: Context, comma: Token, rest: seq<Token>, args: seq<seq<Token>>, k: nat, fuel: nat)
    requires At(s, c, [comma] + rest) && comma.str == "," && k < |args| && fuel > 0
    ensures ReadSourceToken(s).Got? && At(ReadSourceToken(s).src, c, rest)
    ensures ReadArguments(s, args, k, 1, fuel)
         == if k + 1 < |args| then ReadArguments(ReadSourceToken(s).src, args, k + 1, 1, fuel - 1)
            else NoArguments(ReadSourceToken(s).src)
  {
    ReadsNext(s, c, comma, rest);
  }

  /** What reading arguments `given` comes to, behind those already `done`: they
      are stored in order, and one more than there are parameters is an error. */
  ghost predicate Splits(s: Source, s': Source, done: seq<seq<Token>>, outs: seq<seq<Token>>, n: nat, need: nat) {
    && Valid(s) && Valid(s') && |done| < n
    && forall fuel {:trigger ReadArguments(s, done + Empties(n - |done|), |done|, 1, fuel)} :: fuel >= need ==>
         var r := ReadArguments(s, done + Empties(n - |done|), |done|, 1, fuel);
         if |done| + |outs| <= n then r == Arguments(done + outs + Empties(n - |done| - |outs|), s') else r.NoArguments?
  }

  lemma SeparatedFirst(given: seq<seq<Token>>, commas: seq<Token>, tail: seq<Token>)
    requires |given| == |commas| + 1
    ensures Separated(given, commas) + tail
         == given[0] + if commas == [] then tail else [commas[0]] + (Separated(given[1..], commas[1..]) + tail)
  {
  }

  lemma PrescanFirst(defs: map<string, Define>, given: seq<seq<Token>>, depth: nat)
    requires given != []
    ensures PrescanAll(defs, given, depth) == [Prescanned(defs, given[0], depth)] + PrescanAll(defs, given[1..], depth)
    ensures |PrescanAll(defs, given[1..], depth)| == |given| - 1
  {
    hide Prescanned;
  }

  lemma {:induction false} ReadsArguments(s: Source, c: Context, given: seq<seq<Token>>, commas: seq<Token>,
          close: Token, rest: seq<Token>, done: seq<seq<Token>>, n: nat, depth: nat)
      returns (s': Source)
    requires |given| == |commas| + 1 && (forall a <- given :: IsArgument(c.defs, a, depth)) && ProperNames(c.defs)
    requires (forall comma <- commas :: comma.str == ",") && close.str == ")"
    requires |done| < n && At(s, c, Separated(given, commas) + ([close] + rest))
    ensures Splits(s, s', done, PrescanAll(c.defs, given, depth), n, CallNeed(c.defs, given, depth))
    ensures |done| + |given| <= n ==> At(s', c, rest)
    decreases depth, 1, |given|
  {
    hide IsArgument, ReadArguments, ReadSourceToken, Expanded, Prescanned, PrescanAll, ProperNames, Separated, Stores,
      Splits, Need;
    var (a, k) := (Prescanned(c.defs, given[0], depth), |done|);
    assert given[0] in given;
    IsArgumentParts(c.defs, given[0], depth);
    var behind := if commas == [] then [close] + rest
        else [commas[0]] + (Separated(given[1..], commas[1..]) + ([close] + rest));
    SeparatedFirst(given, commas, [close] + rest);
    PrescanFirst(c.defs, given, depth);
    var need := Need(c.defs, given[0], 1, depth);
    var m, s1 := ReadsArgument(s, c, given[0], behind, done + Empties(n - k), k, 1, depth);
    StoreArgument(done, a, n);
    if commas == [] {
      s' := EndsArguments(s, s1, c, a, close, rest, done, n, m, need);
      assert [a] + PrescanAll(c.defs, given[1..], depth) == [a] && CallNeed(c.defs, given[1..], depth) == 0;
    } else {
      assert commas[0] in commas;
      var later := PrescanAll(c.defs, given[1..], depth);
      ReadsNext(s1, c, commas[0], behind[1..]);
      var s2 := ReadSourceToken(s1).src;
      var more := CallNeed(c.defs, given[1..], depth);
      if k + 1 < n {
        s' := ReadsArguments(s2, c, given[1..], commas[1..], close, rest, done + [a], n, depth);
        GoesOn(s, s1, s', c, a, commas[0], behind[1..], done, later, n, m, need, more);
      } else {
        s' := s1;
        TooMany(s, s1, c, a, commas[0], behind[1..], done, later, n, m, need, more);
      }
    }
  }

  lemma IsArgumentParts(defs: map<string, Define>, ts: seq<Token>, depth: nat)
    requires IsArgument(defs, ts, depth)
    ensures Expanded(defs, ts, true, depth) == Some(Prescanned(defs, ts, depth))
    ensures StaysInside(Prescanned(defs, ts, depth), 1) && EndDepth(Prescanned(defs, ts, depth), 1) == 1
  {
  }

  /** The last argument, up to the closing parenthesis. */
  lemma EndsArguments(s: Source, s1: Source, c: Context, a: seq<Token>, close: Token, rest: seq<Token>,
          done: seq<seq<Token>>, n: nat, m: nat, need: nat)
      returns (s': Source)
    requires |done| < n && At(s1, c, [close] + rest) && close.str == ")" && EndDepth(a, 1) == 1
    requires Stores(s, s1, done + Empties(n - |done|), |done|, 1, a, m, need)
    ensures Splits(s, s', done, [a], n, need + 1) && At(s', c, rest)
  {
    hide ReadArguments, ReadSourceToken;
    var (k, args) := (|done|, done + Empties(n - |done|));
    ReadsNext(s1, c, close, rest);
    s' := ReadSourceToken(s1).src;
    StoreArgument(done, a, n);
    forall fuel | fuel >= need + 1
      ensures ReadArguments(s, args, k, 1, fuel) == Arguments(done + [a] + Empties(n - k - 1), s')
    {
      ReadsClose(s1, c, close, rest, args[k := args[k] + a], k, fuel - m);
    }
  }

  /** An argument with a comma behind it, and the others. */
  lemma GoesOn(s: Source, s1: Source, s': Source, c: Context, a: seq<Token>, comma: Token, behind: seq<Token>,
               done: seq<seq<Token>>, later: seq<seq<Token>>, n: nat, m: nat, need: nat, more: nat)
    requires |done| + 1 < n && At(s1, c, [comma] + behind) && comma.str == "," && EndDepth(a, 1) == 1
    requires Stores(s, s1, done + Empties(n - |done|), |done|, 1, a, m, need)
    requires ReadSourceToken(s1).Got? && Splits(ReadSourceToken(s1).src, s', done + [a], later, n, more)
    ensures Splits(s, s', done, [a] + later, n, need + 1 + more)
  {
    hide ReadArguments, ReadSourceToken;
    var (k, args, s2) := (|done|, done + Empties(n - |done|), ReadSourceToken(s1).src);
    StoreArgument(done, a, n);
    assert (done + [a]) + later == done + ([a] + later);
    forall fuel | fuel >= need + 1 + more
      ensures ReadArguments(s, args, k, 1, fuel)
           == ReadArguments(s2, done + [a] + Empties(n - k - 1), k + 1, 1, fuel - m - 1)
    {
      ReadsComma(s1, c, comma, behind, args[k := args[k] + a], k, fuel - m);
    }
  }

  lemma TooMany(s: Source, s1: Source, c: Context, a: seq<Token>, comma: Token, behind: seq<Token>,
                done: seq<seq<Token>>, later: seq<seq<Token>>, n: nat, m: nat, need: nat, more: nat)
    requires |done| + 1 == n && At(s1, c, [comma] + behind) && comma.str == "," && EndDepth(a, 1) == 1 && later != []
    requires Stores(s, s1, done + Empties(n - |done|), |done|, 1, a, m, need)
    ensures Splits(s, s1, done, [a] + later, n, need + 1 + more)
  {
    hide ReadArguments, ReadSourceToken;
    var (k, args) := (|done|, done + Empties(n - |done|));
    forall fuel | fuel >= need + 1 + more ensures ReadArguments(s, args, k, 1, fuel).NoArguments? {
      ReadsComma(s1, c, comma, behind, args[k := args[k] + a], k, fuel - m);
    }
  }

  /** Reading the parameters of a call succeeds exactly when there are no more
      arguments than parameters and no more parameters than the limit; then the full
      expansions of the arguments are stored in order, the others are empty, and
      exactly the tokens through the matching parenthesis are consumed. */
  lemma {:induction false} ReadsCall(s: Source, c: Context, call: CallText, rest: seq<Token>, n: nat, depth: nat)
      returns (s': Source)
    requires n > 0 && IsCall(c.defs, call, depth) && ProperNames(c.defs)
    requires At(s, c, CallTokens(call) + rest)
    ensures forall fuel {:trigger ReadDefineParms(s, n, fuel)} :: fuel >= CallNeed(c.defs, call.given, depth) ==>
              && Valid(s) && !ReadDefineParms(s, n, fuel).ArgumentsStuck?
              && (ReadDefineParms(s, n, fuel).Arguments? <==> |call.given| <= n <= MAX_DEFINEPARMS)
              && (|call.given| <= n <= MAX_DEFINEPARMS ==>
                    ReadDefineParms(s, n, fuel)
                        == Arguments(PrescanAll(c.defs, call.given, depth) + Empties(n - |call.given|), s'))
    ensures |call.given| <= n ==> At(s', c, rest)
    decreases depth, 2
  {
    hide ReadArguments, ReadSourceToken, PrescanAll, IsArgument, ProperNames, Splits, CallNeed;
    var CallText(open, given, commas, close) := call;
    var later := Separated(given, commas) + ([close] + rest);
    assert CallTokens(call) + rest == [open] + later;
    ReadsNext(s, c, open, later);
    var s1 := ReadSourceToken(s).src;
    s' := ReadsArguments(s1, c, given, commas, close, rest, [], n, depth);
    PrescanLength(c.defs, given, depth);
    var (outs, need) := (PrescanAll(c.defs, given, depth), CallNeed(c.defs, given, depth));
    forall fuel | fuel >= need
      ensures !ReadDefineParms(s, n, fuel).ArgumentsStuck?
      ensures ReadDefineParms(s, n, fuel).Arguments? <==> |given| <= n <= MAX_DEFINEPARMS
      ensures |given| <= n <= MAX_DEFINEPARMS ==>
           ReadDefineParms(s, n, fuel) == Arguments(outs + Empties(n - |given|), s')
    {
      SplitsFromStart(s1, s', outs, n, need, fuel);
      assert n <= MAX_DEFINEPARMS ==> ReadDefineParms(s, n, fuel) == ReadArguments(s1, Empties(n), 0, 1, fuel);
    }
  }

  lemma SplitsFromStart(s: Source, s': Source, outs: seq<seq<Token>>, n: nat, need: nat, fuel: nat)
    requires n > 0 && fuel >= need && Splits(s, s', [], outs, n, need)
    ensures Valid(s)
    ensures var r := ReadArguments(s, Empties(n), 0, 1, fuel);
            if |outs| <= n then r == Arguments(outs + Empties(n - |outs|), s') else r.NoArguments?
  {
    hide ReadArguments;
    var done: seq<seq<Token>> := [];
    var k := |done|;
    assert done + Empties(n - k) == Empties(n) && done + outs == outs;
    var r := ReadArguments(s, done + Empties(n - k), k, 1, fuel);
  }

  lemma PrescanLength(defs: map<string, Define>, given: seq<seq<Token>>, depth: nat)
    ensures |PrescanAll(defs, given, depth)| == |given|
  {
  }

  // ------------------------------------------------------- reading calls

  /** Expanding a define with parameters consumes the call and puts its replacement in
      front of what comes after the closing parenthesis. */
  lemma {:induction false} CallExpands(s: Source, c: Context, d: Define, call: CallText, rest: seq<Token>, depth: nat)
      returns (s': Source)
    requires FitsCall(c.defs, d, call, depth) && At(s, c, CallTokens(call) + rest)
    ensures Valid(s) && At(s', c, rest)
    ensures forall fuel {:trigger ExpandDefineIntoSource(s, d, fuel)} :: fuel >= CallNeed(c.defs, call.given, depth) ==>
              ExpandDefineIntoSource(s, d, fuel) == Splice(s', Replacement(c.defs, d, call.given, depth))
    decreases depth, 3
  {
    hide CallTokens, IsCall, ReadDefineParms, Substitute, PrescanAll, ProperNames, MergePass, CallNeed;
    s' := ReadsCall(s, c, call, rest, |d.parms|, depth);
    forall fuel | fuel >= CallNeed(c.defs, call.given, depth)
      ensures ExpandDefineIntoSource(s, d, fuel) == Splice(s', Replacement(c.defs, d, call.given, depth))
    {
      PrescanLength(c.defs, call.given, depth);
      assert ReadDefineParms(s, |d.parms|, fuel)
          == Arguments(FillUp(PrescanAll(c.defs, call.given, depth), |d.parms|), s');
    }
  }

  /** Expanding a define puts what it stands for in front of what is left. */
  lemma {:induction false} SpreadStep(s: Source, c: Context, d: Define, later: seq<Token>, tail: seq<Token>, depth: nat)
      returns (s': Source)
    requires At(s, c, later + tail) && Spread(c.defs, d, later, depth).Some?
    ensures var (body, left) := Spread(c.defs, d, later, depth).value;
            At(s', c, body + (left + tail)) && Expands(s, d, s', SpreadNeed(c.defs, d, later, depth))
    decreases depth, 4
  {
    hide ExpandDefineIntoSource, BodyOf, Replacement, FitsCall, CallTokens, CallNeed, At;
    var (body, left) := Spread(c.defs, d, later, depth).value;
    AtIsValid(s, c, later + tail);
    if d.parms == [] {
      s' := SplicesFront(s, c, body, later + tail);
      forall fuel ensures ExpandDefineIntoSource(s, d, fuel) == Ok(s') {
        BodyIsSpliced(s, d, fuel);
        SplicedIsOk(s, body);
      }
    } else {
      var call := FindCall(c.defs, d, later, depth).value.0;
      CallAheadParts(c.defs, d, later, call, left, depth);
      assert later + tail == CallTokens(call) + (left + tail);
      var s1 := CallExpands(s, c, d, call, left + tail, depth);
      AtIsValid(s1, c, left + tail);
      s' := SplicesFront(s1, c, body, left + tail);
      SplicedIsOk(s1, body);
    }
    AtIsValid(s', c, body + (left + tail));
  }

  lemma CallAheadParts(defs: map<string, Define>, d: Define, later: seq<Token>, call: CallText, left: seq<Token>,
          depth: nat)
    requires CallAhead(defs, d, later, call, left, depth)
    ensures FitsCall(defs, d, call, depth) && |call.given| <= |d.parms| && later == CallTokens(call) + left
  {
  }

  lemma SplicedIsOk(s: Source, body: seq<Token>)
    requires Valid(s) && body != []
    ensures Splice(s, Some(body)) == Ok(Splice(s, Some(body)).src)
  {
  }

  /** Reading the name of a define. */
  lemma NameStep(s: Source, c: Context, t: Token, ts: seq<Token>, fuel: nat)
    requires At(s, c, [t] + ts) && c.skip == 0 && !IsDirective(t) && IsDefineName(c.defs, t)
    ensures ReadSourceToken(s).Got? && At(ReadSourceToken(s).src, c, ts)
    ensures ReadStep(s, fuel)
         == match ExpandDefineIntoSource(ReadSourceToken(s).src, c.defs[t.str], fuel)
            case Ok(s') => Continues(s')
            case Fail(s') => Stops(s')
            case Stuck => StepStuck
  {
    hide ExpandDefineIntoSource;
    ReadsNext(s, c, t, ts);
  }

  /** Reading the name of a define with parameters and a call of it replaces both, in
      front of everything that came after the closing parenthesis, or fails. */
  lemma CallIsReplaced(s: Source, c: Context, name: Token, call: CallText, rest: seq<Token>, depth: nat)
      returns (s': Source)
    requires IsDefineName(c.defs, name) && c.skip == 0 && !IsDirective(name)
    requires FitsCall(c.defs, c.defs[name.str], call, depth)
    requires At(s, c, [name] + (CallTokens(call) + rest))
    ensures var r := Replacement(c.defs, c.defs[name.str], call.given, depth);
            && Valid(s) && At(s', c, if r.Some? then r.value + rest else rest)
            && forall fuel {:trigger ReadStep(s, fuel)} :: fuel >= CallNeed(c.defs, call.given, depth) ==>
                 ReadStep(s, fuel) == if r.Some? then Continues(s') else Stops(s')
  {
    hide CallTokens, IsCall, ExpandDefineIntoSource, ReadStep, ProperNames, Replacement, CallNeed, At;
    var d := c.defs[name.str];
    var r := Replacement(c.defs, d, call.given, depth);
    AtIsValid(s, c, [name] + (CallTokens(call) + rest));
    ReadsNext(s, c, name, CallTokens(call) + rest);
    var s1 := ReadSourceToken(s).src;
    var s2 := CallExpands(s1, c, d, call, rest, depth);
    AtIsValid(s2, c, rest);
    if r.Some? {
      s' := SplicesFront(s2, c, r.value, rest);
      SplicedIsOk(s2, r.value);
    } else {
      s' := s2;
    }
    forall fuel | fuel >= CallNeed(c.defs, call.given, depth)
      ensures ReadStep(s, fuel) == if r.Some? then Continues(s') else Stops(s')
    {
      assert ExpandDefineIntoSource(s1, d, fuel) == Splice(s2, r);
      NameStep(s, c, name, CallTokens(call) + rest, fuel);
    }
  }

  /** Raw reading of tokens with a full expansion yields it, and stops in front of
      what follows them. */
  lemma {:induction false} ReadsExpanded(s: Source, c: Context, ts: seq<Token>, rest: seq<Token>, depth: nat, fuel: nat)
      returns (n: nat, s': Source)
    requires At(s, c, ts + rest) && c.skip == 0 && Expanded(c.defs, ts, false, depth).Some?
    requires fuel >= Need(c.defs, ts, 0, depth)
    ensures Valid(s) && Advance(s, n, fuel) == Some(Run(Expanded(c.defs, ts, false, depth).value, s'))
    ensures At(s', c, rest)
    decreases depth, |ts|
  {
    hide ReadStep, Spread, SpreadNeed, Expands, Advance, At;
    AtIsValid(s, c, ts + rest);
    if ts == [] {
      n, s' := 0, s;
      assert ts + rest == rest;
      AdvanceNothing(s, fuel);
    } else {
      var (t, later) := (ts[0], ts[1..]);
      assert ts + rest == [t] + (later + rest);
      if !IsDefineName(c.defs, t) {
        StepOnToken(s, c, t, later + rest, fuel);
        var m;
        m, s' := ReadsExpanded(ReadStep(s, fuel).src, c, later, rest, depth, fuel);
        AdvanceReturns(s, m, fuel);
        n := m + 1;
      } else {
        var (body, left) := Spread(c.defs, c.defs[t.str], later, depth - 1).value;
        NameStep(s, c, t, later + rest, fuel);
        var s1 := SpreadStep(ReadSourceToken(s).src, c, c.defs[t.str], later, rest, depth - 1);
        ExpandsNow(ReadSourceToken(s).src, c.defs[t.str], s1, SpreadNeed(c.defs, c.defs[t.str], later, depth - 1),
            fuel);
        assert body + (left + rest) == (body + left) + rest;
        n, s' := ReadsExpanded(s1, c, body + left, rest, depth - 1, fuel);
        AdvanceSilently(s, n, fuel);
        n := n + 1;
      }
    }
  }

  /** One call of PC_ReadToken. */
  lemma {:induction false} LooksAhead(s: Source, c: Context, ts: seq<Token>, rest: seq<Token>, depth: nat, rounds: nat,
          fuel: nat)
      returns (s': Source)
    requires At(s, c, ts + rest) && c.skip == 0 && LookAhead(c.defs, ts, depth).Some?
    requires rounds >= LookNeed(c.defs, ts, depth) && fuel >= LookNeed(c.defs, ts, depth)
    ensures var (t, left) := LookAhead(c.defs, ts, depth).value;
            Valid(s) && ReadToken(s, rounds, fuel) == Got(t, s') && At(s', c, left + rest)
    decreases depth
  {
    hide ReadStep, Spread, SpreadNeed, Expands, At;
    AtIsValid(s, c, ts + rest);
    var (t, later) := (ts[0], ts[1..]);
    assert ts + rest == [t] + (later + rest);
    if !IsDefineName(c.defs, t) {
      StepOnToken(s, c, t, later + rest, fuel);
      s' := ReadStep(s, fuel).src;
    } else {
      var (body, left) := Spread(c.defs, c.defs[t.str], later, depth - 1).value;
      NameStep(s, c, t, later + rest, fuel);
      var s1 := SpreadStep(ReadSourceToken(s).src, c, c.defs[t.str], later, rest, depth - 1);
      ExpandsNow(ReadSourceToken(s).src, c.defs[t.str], s1, SpreadNeed(c.defs, c.defs[t.str], later, depth - 1), fuel);
      assert body + (left + rest) == (body + left) + rest;
      s' := LooksAhead(s1, c, body + left, rest, depth - 1, rounds - 1, fuel);
    }
  }

  lemma ExpandsNow(s: Source, d: Define, s': Source, need: nat, fuel: nat)
    requires Expands(s, d, s', need) && fuel >= need
    ensures ExpandDefineIntoSource(s, d, fuel) == Ok(s')
  {
  }

  // ---------------------------------------------------------- substitution

  ghost predicate Distinct(parms: seq<string>) {
    forall i, j :: 0 <= i < j < |parms| ==> parms[i] != parms[j]
  }

  /** A token's replacement: the argument of the parameter it names, or itself. */
  ghost function Piece(t: Token, parms: seq<string>, args: seq<seq<Token>>): seq<Token>
    requires |args| == |parms|
  {
    if t.typ == TT_NAME && t.str in parms then
      var i :| 0 <= i < |parms| && parms[i] == t.str;
      args[i]
    else [t]
  }

  ghost function Pieces(body: seq<Token>, parms: seq<string>, args: seq<seq<Token>>): seq<Token>
    requires |args| == |parms|
  {
    if body == [] then [] else Piece(body[0], parms, args) + Pieces(body[1..], parms, args)
  }

  predicate NoMerge(ts: seq<Token>) { forall t <- ts :: !IsMerge(t) }

  predicate NoHash(ts: seq<Token>) { NoMerge(ts) && forall t <- ts :: t.str != "#" }

  /** Without # in the body, substitution replaces every parameter and nothing else. */
  lemma {:induction false} SubstitutesParameters(body: seq<Token>, parms: seq<string>, args: seq<seq<Token>>)
    requires |args| == |parms| && Distinct(parms) && NoHash(body)
    ensures Substitute(body, parms, args) == Pieces(body, parms, args)
    decreases body
  {
    if body != [] {
      assert body[0] in body;
      SubstitutesParameters(body[1..], parms, args);
      if body[0].typ == TT_NAME && body[0].str in parms {
        var i :| 0 <= i < |parms| && parms[i] == body[0].str && Piece(body[0], parms, args) == args[i];
        assert FindDefineParm(parms, body[0].str).value == i;
      }
    }
  }

  lemma {:induction false} NothingToMerge(ts: seq<Token>)
    requires forall t <- ts :: !IsMerge(t)
    ensures MergePass(ts) == Some(ts)
    decreases ts
  {
    if ts != [] {
      assert |ts| >= 3 ==> ts[1] in ts;
      NothingToMerge(ts[1..]);
      assert [ts[0]] + ts[1..] == ts;
    }
  }

  /** Without # and ## the replacement is the body with each parameter replaced by the
      full expansion of its argument, and it is an error only if that is empty. */
  lemma ReplacesParameters(defs: map<string, Define>, d: Define, given: seq<seq<Token>>, depth: nat)
    requires |given| <= |d.parms| && Distinct(d.parms) && NoHash(d.body)
    requires forall a <- PrescanAll(defs, given, depth) :: NoMerge(a)
    ensures var pieces := Pieces(d.body, d.parms, FillUp(PrescanAll(defs, given, depth), |d.parms|));
            Replacement(defs, d, given, depth) == if pieces == [] then None else Some(pieces)
  {
    hide PrescanAll, Distinct, Substitute, MergePass, Pieces;
    PrescanLength(defs, given, depth);
    var args := FillUp(PrescanAll(defs, given, depth), |d.parms|);
    SubstitutesParameters(d.body, d.parms, args);
    PiecesHaveNoMerge(d.body, d.parms, args);
    NothingToMerge(Pieces(d.body, d.parms, args));
  }

  lemma {:induction false} PiecesHaveNoMerge(body: seq<Token>, parms: seq<string>, args: seq<seq<Token>>)
    requires |args| == |parms| && NoMerge(body) && forall a <- args :: NoMerge(a)
    ensures NoMerge(Pieces(body, parms, args))
    decreases body
  {
    if body != [] {
      assert body[0] in body;
      PiecesHaveNoMerge(body[1..], parms, args);
      assert NoMerge(Piece(body[0], parms, args));
    }
  }
}
