/** Where bodies do not name one another in a cycle, reading always returns: calls of
    PC_ReadToken come to an end, with defines of both kinds. */
module Returning {
  import opened Options
  import opened Tokens
  import opened Macros
  import opened Precompiler
  import opened Streams
  import opened Expansion
  import opened Calls
  import opened Fuel
  import T = Termination

  // --------------------------------------------------------------- weights

  /** A body names only defines of smaller rank, but for its parameters. */
  ghost predicate Ranked(defs: map<string, Define>, rank: map<string, nat>, top: nat) {
    forall name <- defs ::
      name in rank && rank[name] < top && BodyBelow(defs, rank, name, rank[name])
  }

  ghost predicate BodyBelow(defs: map<string, Define>, rank: map<string, nat>, name: string, k: nat)
    requires name in defs
  {
    forall t <- defs[name].body :: Names(defs, t, defs[name].parms) ==> t.str in rank && rank[t.str] < k
  }

  predicate Names(defs: map<string, Define>, t: Token, parms: seq<string>) { IsDefineName(defs, t) && t.str !in parms }

  /** How many names can be expanded in the tokens and in what they stand for: those of
      rank below `k`, and not those of parameters. */
  ghost function Weigh(defs: map<string, Define>, rank: map<string, nat>, ts: seq<Token>, parms: seq<string>,
          k: nat): nat
    decreases k, |ts|
  {
    if ts == [] then 0 else TokenWeight(defs, rank, ts[0], parms, k) + Weigh(defs, rank, ts[1..], parms, k)
  }

  ghost function TokenWeight(defs: map<string, Define>, rank: map<string, nat>, t: Token, parms: seq<string>,
          k: nat): nat
    decreases k, 0
  {
    if Names(defs, t, parms) && t.str in rank && rank[t.str] < k then
      1 + Weigh(defs, rank, defs[t.str].body, defs[t.str].parms, rank[t.str])
    else 0
  }

  lemma {:induction false} WeighConcat(defs: map<string, Define>, rank: map<string, nat>, ts: seq<Token>,
          us: seq<Token>, parms: seq<string>, k: nat)
    ensures Weigh(defs, rank, ts + us, parms, k) == Weigh(defs, rank, ts, parms, k) + Weigh(defs, rank, us, parms, k)
    decreases ts
  {
    hide TokenWeight;
    if ts == [] {
      assert ts + us == us;
    } else {
      assert (ts + us)[0] == ts[0] && (ts + us)[1..] == ts[1..] + us;
      WeighConcat(defs, rank, ts[1..], us, parms, k);
    }
  }

  /** Names of small rank weigh the same whatever the bound. */
  lemma {:induction false} WeighBounded(defs: map<string, Define>, rank: map<string, nat>, ts: seq<Token>,
          parms: seq<string>, k: nat, top: nat)
    requires k <= top && forall t <- ts :: Names(defs, t, parms) ==> t.str in rank && rank[t.str] < k
    ensures Weigh(defs, rank, ts, parms, k) == Weigh(defs, rank, ts, parms, top)
    decreases ts
  {
    if ts != [] { WeighBounded(defs, rank, ts[1..], parms, k, top); }
  }

  /** A define's name outweighs the define's body. */
  lemma WeighName(defs: map<string, Define>, rank: map<string, nat>, t: Token, later: seq<Token>, top: nat)
    requires Ranked(defs, rank, top) && IsDefineName(defs, t)
    ensures Weigh(defs, rank, [t] + later, [], top)
         == 1 + Weigh(defs, rank, defs[t.str].body, defs[t.str].parms, top) + Weigh(defs, rank, later, [], top)
  {
    assert ([t] + later)[1..] == later && BodyBelow(defs, rank, t.str, rank[t.str]);
    WeighBounded(defs, rank, defs[t.str].body, defs[t.str].parms, rank[t.str], top);
  }

  lemma WeighOther(defs: map<string, Define>, rank: map<string, nat>, t: Token, later: seq<Token>, top: nat)
    requires !IsDefineName(defs, t)
    ensures Weigh(defs, rank, [t] + later, [], top) == Weigh(defs, rank, later, [], top)
  {
    assert ([t] + later)[1..] == later;
  }

  // ------------------------------------------------------------ plain tokens

  /** Neither a directive nor a ##; strings have their quotes. */
  predicate IsPlain(t: Token) {
    !IsDirective(t) && !IsMerge(t) && (t.typ == TT_STRING ==> |t.str| >= 2 && t.str[0] == '"')
  }

  ghost predicate PlainStream(ts: seq<Token>) { forall t <- ts :: IsPlain(t) }

  /** Fully expanded tokens. */
  ghost predicate Inert(defs: map<string, Define>,
          ts: seq<Token>) { forall t <- ts :: IsPlain(t) && !IsDefineName(defs, t) }

  /** No ## and no other directive than the # in front of a parameter. */
  ghost predicate PlainBody(body: seq<Token>) { forall t <- body :: t.str == "#" || IsPlain(t) }

  ghost predicate PlainTable(defs: map<string, Define>) {
    ProperNames(defs) && forall name <- defs :: PlainBody(defs[name].body)
  }

  lemma {:induction false} WeighInert(defs: map<string, Define>, rank: map<string, nat>, ts: seq<Token>, top: nat)
    requires Inert(defs, ts)
    ensures Weigh(defs, rank, ts, [], top) == 0
    decreases ts
  {
    if ts != [] { WeighInert(defs, rank, ts[1..], top); }
  }

  lemma StringizedIsInert(defs: map<string, Define>, ts: seq<Token>)
    ensures Inert(defs, [Stringize(ts)])
  {
    assert Stringize(ts).str[0] == '"';
  }

  /** Substitution takes no name out of an argument, and leaves no # behind. */
  lemma {:induction false} SubstituteIsLight(defs: map<string, Define>, rank: map<string, nat>, body: seq<Token>,
          parms: seq<string>, args: seq<seq<Token>>, top: nat)
    requires |args| == |parms| && PlainBody(body) && forall a <- args :: Inert(defs, a)
    ensures PlainStream(Substitute(body, parms, args))
    ensures Weigh(defs, rank, Substitute(body, parms, args), [], top) <= Weigh(defs, rank, body, parms, top)
    decreases |body|
  {
    hide Weigh, TokenWeight, IsDirective, IsMerge, Stringize, Inert;
    if body == [] {
      WeighNothing(defs, rank, parms, top);
      WeighNothing(defs, rank, [], top);
    } else {
      SubstituteIsLight(defs, rank, body[1..], parms, args, top);
      WeighFirst(defs, rank, body, parms, top);
      var p := if body[0].typ == TT_NAME then FindDefineParm(parms, body[0].str) else None;
      if p.Some? {
        assert args[p.value] in args;
        LightFront(defs, rank, args[p.value], Substitute(body[1..], parms, args), top);
      } else if body[0].str != "#" {
        OneLight(defs, rank, body[0], parms, Substitute(body[1..], parms, args), top);
      } else if |body| > 1 && FindDefineParm(parms, body[1].str).Some? {
        SubstituteIsLight(defs, rank, body[2..], parms, args, top);
        WeighFirst(defs, rank, body[1..], parms, top);
        var a := args[FindDefineParm(parms, body[1].str).value];
        StringizedIsInert(defs, a);
        LightFront(defs, rank, [Stringize(a)], Substitute(body[2..], parms, args), top);
        assert body[1..][1..] == body[2..];
      }
    }
  }

  lemma WeighNothing(defs: map<string, Define>, rank: map<string, nat>, parms: seq<string>, top: nat)
    ensures Weigh(defs, rank, [], parms, top) == 0
  {
  }

  lemma WeighFirst(defs: map<string, Define>, rank: map<string, nat>, ts: seq<Token>, parms: seq<string>, top: nat)
    requires ts != []
    ensures Weigh(defs, rank, ts, parms, top)
         == TokenWeight(defs, rank, ts[0], parms, top) + Weigh(defs, rank, ts[1..], parms, top)
  {
  }

  lemma LightFront(defs: map<string, Define>, rank: map<string, nat>, a: seq<Token>, rest: seq<Token>, top: nat)
    requires Inert(defs, a) && PlainStream(rest)
    ensures PlainStream(a + rest) && Weigh(defs, rank, a + rest, [], top) == Weigh(defs, rank, rest, [], top)
  {
    WeighConcat(defs, rank, a, rest, [], top);
    WeighInert(defs, rank, a, top);
  }

  lemma OneLight(defs: map<string, Define>, rank: map<string, nat>, t: Token, parms: seq<string>, rest: seq<Token>,
          top: nat)
    requires IsPlain(t) && PlainStream(rest) && (t.typ == TT_NAME ==> t.str !in parms)
    ensures PlainStream([t] + rest)
    ensures Weigh(defs, rank, [t] + rest, [], top)
         == TokenWeight(defs, rank, t, parms, top) + Weigh(defs, rank, rest, [], top)
  {
    assert ([t] + rest)[1..] == rest;
  }

  // -------------------------------------------------------- what is left

  /** Less is left to read: fewer names can be expanded, or as many in fewer tokens. */
  ghost predicate Less(defs: map<string, Define>, rank: map<string, nat>, ts: seq<Token>, us: seq<Token>, top: nat) {
    var (m, n) := (Weigh(defs, rank, ts, [], top), Weigh(defs, rank, us, [], top));
    m < n || (m == n && |ts| < |us|)
  }

  /** The state a call leaves when it has read from `ts`. */
  ghost predicate Leaves(s': Source, c: Context, rank: map<string, nat>, left: seq<Token>, ts: seq<Token>, top: nat) {
    At(s', c, left) && PlainStream(left) && (left == ts || Less(c.defs, rank, left, ts, top))
  }

  ghost predicate Returnable(c: Context, rank: map<string, nat>, ts: seq<Token>, top: nat) {
    c.indents == [] && c.skip == 0 && Ranked(c.defs, rank, top) && PlainTable(c.defs) && PlainStream(ts)
  }

  lemma LessLater(defs: map<string, Define>, rank: map<string, nat>, t: Token, later: seq<Token>, top: nat)
    ensures Weigh(defs, rank, later, [], top) <= Weigh(defs, rank, [t] + later, [], top)
    ensures Less(defs, rank, later, [t] + later, top)
  {
    hide TokenWeight;
    assert ([t] + later)[1..] == later;
  }

  lemma LeavesSame(s: Source, c: Context, rank: map<string, nat>, ts: seq<Token>, top: nat)
    requires At(s, c, ts) && PlainStream(ts)
    ensures Leaves(s, c, rank, ts, ts, top)
  {
  }

  lemma LeavesParts(s': Source, c: Context, rank: map<string, nat>, left: seq<Token>, ts: seq<Token>, top: nat)
    requires Leaves(s', c, rank, left, ts, top)
    ensures At(s', c, left) && PlainStream(left) && (left == ts || Less(c.defs, rank, left, ts, top))
  {
  }

  lemma LeavesThrough(s': Source, c: Context, rank: map<string, nat>, left: seq<Token>, mid: seq<Token>, ts: seq<Token>,
          top: nat)
    requires Leaves(s', c, rank, left, mid, top) && Less(c.defs, rank, mid, ts, top)
    ensures Leaves(s', c, rank, left, ts, top) && Less(c.defs, rank, left, ts, top)
  {
    hide At, Weigh;
  }

  lemma PlainParts(c: Context, rank: map<string, nat>, t: Token, later: seq<Token>, top: nat)
    requires Returnable(c, rank, [t] + later, top)
    ensures Returnable(c, rank, later, top) && IsPlain(t) && Less(c.defs, rank, later, [t] + later, top)
    ensures Weigh(c.defs, rank, later, [], top) <= Weigh(c.defs, rank, [t] + later, [], top)
  {
    hide Ranked, PlainTable, Weigh, IsPlain, Less;
    assert t in [t] + later && forall u <- later :: u in [t] + later;
    LessLater(c.defs, rank, t, later, top);
  }

  // -------------------------------------------------------------- calls

  ghost predicate InertAll(defs: map<string, Define>, args: seq<seq<Token>>) { forall a <- args :: Inert(defs, a) }

  lemma AppendInert(defs: map<string, Define>, args: seq<seq<Token>>, k: nat, t: Token)
    requires InertAll(defs, args) && k < |args| && IsPlain(t) && !IsDefineName(defs, t)
    ensures InertAll(defs, AppendTo(args, k, t))
  {
    forall a | a in AppendTo(args, k, t) ensures Inert(defs, a) {
      assert args[k] in args;
      assert a in args || a == args[k] + [t];
    }
  }

  function Larger(m: nat, n: nat): nat { if m < n then n else m }

  /** Reading arguments returns. */
  lemma {:induction false} ArgumentsReturn(s: Source, c: Context, rank: map<string, nat>, ts: seq<Token>, top: nat,
                                           args: seq<seq<Token>>, k: nat, depth: nat) returns (n: nat, left: seq<Token>)
    requires At(s, c, ts) && Returnable(c, rank, ts, top) && InertAll(c.defs, args) && k < |args| && depth > 0
    ensures Valid(s) && !ReadArguments(s, args, k, depth, n).ArgumentsStuck?
    ensures var r := ReadArguments(s, args, k, depth, n);
            Leaves(r.src, c, rank, left, ts, top) && (r.Arguments? ==> InertAll(c.defs, r.args))
    decreases Weigh(c.defs, rank, ts, [], top), |ts|, 1
  {
    hide ExpandDefineIntoSource, At, Weigh, Ranked, PlainTable, PlainStream, InertAll, AppendTo, Leaves, Less, IsPlain;
    AtIsValid(s, c, ts);
    if ts == [] {
      ReadsNothing(s, c);
      n, left := 1, [];
      LeavesSame(s, c, rank, ts, top);
    } else {
      var (t, later) := (ts[0], ts[1..]);
      assert ts == [t] + later;
      ReadsNext(s, c, t, later);
      var s1 := ReadSourceToken(s).src;
      AtIsValid(s1, c, later);
      SameDefines(s1, c, later);
      PlainParts(c, rank, t, later, top);
      if IsDefineName(c.defs, t) {
        n, left := NameReturns(s, c, rank, t, later, top, args, k, depth);
      } else if (t.str == "," && depth <= 1 && k + 1 >= |args|) || (t.str == ")" && depth == 1) {
        n, left := 1, later;
        LeavesSame(s1, c, rank, later, top);
        LeavesThrough(s1, c, rank, later, later, ts, top);
      } else {
        AppendInert(c.defs, args, k, t);
        var (args', k') := if t.str == "," && depth <= 1 then (args, k + 1) else (AppendTo(args, k, t), k);
        var depth' := if t.str == "(" then depth + 1 else if t.str == ")" then depth - 1 else depth;
        var m;
        m, left := ArgumentsReturn(s1, c, rank, later, top, args', k', depth');
        n := m + 1;
        assert ReadArguments(s, args, k, depth, n) == ReadArguments(s1, args', k', depth', m);
        LeavesThrough(ReadArguments(s1, args', k', depth', m).src, c, rank, left, later, ts, top);
      }
    }
  }

  lemma {:induction false} NameReturns(s: Source, c: Context, rank: map<string, nat>, t: Token, later: seq<Token>,
          top: nat, args: seq<seq<Token>>, k: nat, depth: nat)
      returns (n: nat, left: seq<Token>)
    requires At(s, c, [t] + later) && Returnable(c, rank, [t] + later, top) && IsDefineName(c.defs, t)
    requires InertAll(c.defs, args) && k < |args| && depth > 0
    ensures Valid(s) && !ReadArguments(s, args, k, depth, n).ArgumentsStuck?
    ensures var r := ReadArguments(s, args, k, depth, n);
            Leaves(r.src, c, rank, left, [t] + later, top) && (r.Arguments? ==> InertAll(c.defs, r.args))
    decreases Weigh(c.defs, rank, [t] + later, [], top), |later| + 1, 0
  {
    hide ExpandDefineIntoSource, ReadArguments, At, Weigh, Ranked, PlainTable, PlainStream, InertAll, Leaves, Less,
      IsPlain;
    AtIsValid(s, c, [t] + later);
    ReadsNext(s, c, t, later);
    var (s1, d) := (ReadSourceToken(s).src, c.defs[t.str]);
    AtIsValid(s1, c, later);
    SameDefines(s1, c, later);
    PlainParts(c, rank, t, later, top);
    NameWeighs(c, rank, t, later, top);
    var m, out := ExpansionReturns(s1, c, rank, t.str, later, top);
    var r := ExpandDefineIntoSource(s1, d, m);
    if r.Fail? {
      n, left := m + 1, out;
      ArgumentsUnfold(s, c, t, later, args, k, depth, n);
      LeavesThrough(r.src, c, rank, out, later, [t] + later, top);
    } else {
      var i;
      i, left := ArgumentsReturn(r.src, c, rank, out, top, args, k, depth);
      n := 1 + Larger(m, i);
      ArgumentsUnfold(s, c, t, later, args, k, depth, n);
      MoreExpansion(s1, d, m, n - 1);
      MoreArguments(r.src, args, k, depth, i, n - 1);
      LighterIsLess(c, rank, out, [t] + later, top);
      LeavesThrough(ReadArguments(r.src, args, k, depth, i).src, c, rank, left, out, [t] + later, top);
    }
  }

  lemma ArgumentsUnfold(s: Source, c: Context, t: Token, later: seq<Token>, args: seq<seq<Token>>, k: nat, depth: nat,
          n: nat)
    requires At(s, c, [t] + later) && ProperNames(c.defs) && IsDefineName(c.defs, t) && k < |args| && depth > 0 && n > 0
    ensures ReadSourceToken(s).Got? && Valid(ReadSourceToken(s).src)
    ensures var r := ExpandDefineIntoSource(ReadSourceToken(s).src, c.defs[t.str], n - 1);
            ReadArguments(s, args, k, depth, n)
              == if r.Ok? then ReadArguments(r.src, args, k, depth, n - 1) else if r.Fail? then NoArguments(r.src)
                  else ArgumentsStuck
  {
    hide ExpandDefineIntoSource;
    ReadsNext(s, c, t, later);
  }

  lemma NameWeighs(c: Context, rank: map<string, nat>, t: Token, later: seq<Token>, top: nat)
    requires Returnable(c, rank, [t] + later, top) && IsDefineName(c.defs, t)
    ensures ProperNames(c.defs)
    ensures Weigh(c.defs, rank, [t] + later, [], top)
         == 1 + Weigh(c.defs, rank, c.defs[t.str].body, c.defs[t.str].parms, top) + Weigh(c.defs, rank, later, [], top)
  {
    hide Weigh, Ranked;
    WeighName(c.defs, rank, t, later, top);
  }

  lemma LighterIsLess(c: Context, rank: map<string, nat>, ts: seq<Token>, us: seq<Token>, top: nat)
    requires Weigh(c.defs, rank, ts, [], top) < Weigh(c.defs, rank, us, [], top)
    ensures Less(c.defs, rank, ts, us, top)
  {
  }

  /** What is to be read is what is left of `ts` and no more names than the body has. */
  ghost predicate Lightens(s': Source, c: Context, rank: map<string, nat>, out: seq<Token>, d: Define, ts: seq<Token>,
          top: nat)
  {
    && At(s', c, out) && PlainStream(out)
    && Weigh(c.defs, rank, out, [], top) <= Weigh(c.defs, rank, d.body, d.parms, top) + Weigh(c.defs, rank, ts, [], top)
  }

  lemma BodyOfTable(defs: map<string, Define>, name: string)
    requires PlainTable(defs) && name in defs
    ensures PlainBody(defs[name].body)
  {
  }

  /** Expanding a define returns: it puts in front of what is left no more names than
      its body has, or fails. */
  lemma {:induction false} ExpansionReturns(s: Source, c: Context, rank: map<string, nat>, name: string, ts: seq<Token>,
          top: nat)
      returns (n: nat, out: seq<Token>)
    requires At(s, c, ts) && Returnable(c, rank, ts, top) && name in c.defs
    ensures Valid(s) && !ExpandDefineIntoSource(s, c.defs[name], n).Stuck?
    ensures var (r, d) := (ExpandDefineIntoSource(s, c.defs[name], n), c.defs[name]);
            && (r.Fail? ==> Leaves(r.src, c, rank, out, ts, top))
            && (r.Ok? ==> Lightens(r.src, c, rank, out, d, ts, top))
    decreases Weigh(c.defs, rank, ts, [], top), |ts|, 2
  {
    hide ReadArguments, Substitute, MergePass, At, Weigh, Ranked, PlainTable, PlainBody, PlainStream, InertAll, Leaves,
      Lightens, Less, IsPlain;
    var d := c.defs[name];
    AtIsValid(s, c, ts);
    BodyOfTable(c.defs, name);
    if d.parms == [] {
      n := 0;
      NoneIsInert(c.defs, []);
      out := SplicesLight(s, c, rank, d, [], ts, ts, top);
    } else if ts == [] {
      ReadsNothing(s, c);
      n, out := 0, [];
      LeavesSame(s, c, rank, ts, top);
    } else {
      var (t, later) := (ts[0], ts[1..]);
      assert ts == [t] + later;
      ReadsNext(s, c, t, later);
      var s1 := ReadSourceToken(s).src;
      AtIsValid(s1, c, later);
      PlainParts(c, rank, t, later, top);
      if |d.parms| > MAX_DEFINEPARMS {
        n, out := 0, later;
        LeavesSame(s1, c, rank, later, top);
        LeavesThrough(s1, c, rank, later, later, ts, top);
      } else if t.str != "(" {
        n, out := 0, ts;
        UnreadsNext(s1, c, t, later);
        LeavesSame(UnreadSourceToken(s1, t), c, rank, ts, top);
      } else {
        var args: seq<seq<Token>> := seq(|d.parms|, _ => []);
        NoneIsInert(c.defs, args);
        var left;
        n, left := ArgumentsReturn(s1, c, rank, later, top, args, 0, 1);
        var r := ReadArguments(s1, args, 0, 1, n);
        LeavesThrough(r.src, c, rank, left, later, ts, top);
        LeavesParts(r.src, c, rank, left, ts, top);
        if r.Arguments? {
          out := SplicesLight(r.src, c, rank, d, r.args, left, ts, top);
        } else {
          out := left;
        }
      }
    }
  }

  lemma NoneIsInert(defs: map<string, Define>, args: seq<seq<Token>>)
    requires forall a <- args :: a == []
    ensures InertAll(defs, args)
  {
  }

  /** The replacement in front of what is left. */
  lemma SplicesLight(s: Source, c: Context, rank: map<string, nat>, d: Define, args: seq<seq<Token>>, left: seq<Token>,
          ts: seq<Token>, top: nat)
      returns (out: seq<Token>)
    requires At(s, c, left) && PlainStream(left) && |args| == |d.parms| && PlainBody(d.body) && InertAll(c.defs, args)
    requires left == ts || Less(c.defs, rank, left, ts, top)
    ensures var r := Splice(s, MergePass(Substitute(d.body, d.parms, args)));
            && (r.Fail? ==> Leaves(r.src, c, rank, out, ts, top))
            && (r.Ok? ==> Lightens(r.src, c, rank, out, d, ts, top))
  {
    hide Weigh, Substitute, MergePass, At, IsPlain;
    var pieces := Substitute(d.body, d.parms, args);
    SubstituteIsLight(c.defs, rank, d.body, d.parms, args, top);
    PlainUnmerged(pieces);
    if pieces == [] {
      out := left;
    } else {
      var s' := SplicesFront(s, c, pieces, left);
      out := pieces + left;
      WeighConcat(c.defs, rank, pieces, left, [], top);
    }
  }

  lemma PlainUnmerged(ts: seq<Token>)
    requires PlainStream(ts)
    ensures MergePass(ts) == Some(ts)
  {
    NothingToMerge(ts);
  }

  // ---------------------------------------------------------- PC_ReadToken

  /** One round returns. */
  lemma StepReturns(s: Source, c: Context, rank: map<string, nat>, t: Token, later: seq<Token>, top: nat)
      returns (n: nat, left: seq<Token>)
    requires At(s, c, [t] + later) && Returnable(c, rank, [t] + later, top)
    ensures Valid(s) && !ReadStep(s, n).StepStuck?
    ensures Leaves(ReadStep(s, n).src, c, rank, left, [t] + later, top) && Less(c.defs, rank, left, [t] + later, top)
    ensures ReadStep(s, n).Returns? ==> ReadStep(s, n).token == t && IsPlain(t) && !IsDefineName(c.defs, t)
  {
    hide ReadStep, ExpandDefineIntoSource, At, Weigh, Ranked, PlainTable, PlainStream, Leaves, Less, IsDirective,
      IsMerge;
    AtIsValid(s, c, [t] + later);
    ReadsNext(s, c, t, later);
    var s1 := ReadSourceToken(s).src;
    AtIsValid(s1, c, later);
    PlainParts(c, rank, t, later, top);
    if !IsDefineName(c.defs, t) {
      n, left := 0, later;
      StepOnToken(s, c, t, later, 0);
      LeavesSame(ReadStep(s, 0).src, c, rank, later, top);
      LeavesThrough(ReadStep(s, 0).src, c, rank, later, later, [t] + later, top);
    } else {
      NameWeighs(c, rank, t, later, top);
      n, left := ExpansionReturns(s1, c, rank, t.str, later, top);
      NameStep(s, c, t, later, n);
      var r := ExpandDefineIntoSource(s1, c.defs[t.str], n);
      if r.Fail? {
        LeavesThrough(r.src, c, rank, left, later, [t] + later, top);
      } else {
        LighterIsLess(c, rank, left, [t] + later, top);
        LeavesSame(r.src, c, rank, left, top);
        LeavesThrough(r.src, c, rank, left, left, [t] + later, top);
      }
    }
  }

  /** One call returns. */
  lemma {:induction false} TokenReturns(s: Source, c: Context, rank: map<string, nat>, ts: seq<Token>, top: nat)
      returns (n: nat, left: seq<Token>)
    requires At(s, c, ts) && Returnable(c, rank, ts, top)
    ensures Valid(s) && !ReadToken(s, n, n).ReadStuck? && Leaves(ReadToken(s, n, n).src, c, rank, left, ts, top)
    ensures ReadToken(s, n, n).Got? ==> Less(c.defs, rank, left, ts, top) && Inert(c.defs, [ReadToken(s, n, n).token])
    decreases Weigh(c.defs, rank, ts, [], top), |ts|
  {
    hide ReadStep, At, Weigh, Ranked, PlainTable, PlainStream, Leaves, JoinFits, JoinStrings, IsDirective, IsMerge;
    AtIsValid(s, c, ts);
    if ts == [] {
      ReadsNothing(s, c);
      StepAtNothing(s);
      n, left := 1, [];
      LeavesSame(s, c, rank, ts, top);
    } else {
      assert ts == [ts[0]] + ts[1..];
      var m, left1 := StepReturns(s, c, rank, ts[0], ts[1..], top);
      var step := ReadStep(s, m);
      if step.Stops? {
        n, left := m + 1, left1;
        MoreStep(s, m, n);
      } else {
        LeftIsReturnable(step.src, c, rank, left1, ts, top);
        var i, left2 := TokenReturns(step.src, c, rank, left1, top);
        n := Larger(m, i) + 1;
        MoreStep(s, m, n);
        MoreToken(step.src, i, n - 1, i, n);
        var next := ReadToken(step.src, i, i);
        LeavesThrough(next.src, c, rank, left2, left1, ts, top);
        left := left2;
        if step.Returns? {
          if step.token.typ != TT_STRING {
            left := left1;
          } else if next.Got? && (next.token.typ != TT_STRING || step.token.str == "" || next.token.str == "") {
            left := [next.token] + left2;
            PutBack(next.src, c, rank, next.token, left2, left1, ts, top);
          } else if next.Got? {
            JoinedIsInert(c.defs, step.token, next.token);
          }
        }
      }
    }
  }

  /** A token put back: the one returned before it is still gone. */
  lemma PutBack(s: Source, c: Context, rank: map<string, nat>, u: Token, left: seq<Token>, mid: seq<Token>,
          ts: seq<Token>, top: nat)
    requires Leaves(s, c, rank, left, mid, top) && Less(c.defs, rank, left, mid, top)
    requires Less(c.defs, rank, mid, ts, top)
    requires Inert(c.defs, [u])
    ensures Leaves(UnreadSourceToken(s, u), c, rank, [u] + left, ts, top) && Less(c.defs, rank, [u] + left, ts, top)
  {
    hide Weigh, IsDirective, IsMerge;
    assert u in [u];
    UnreadsNext(s, c, u, left);
    LightFront(c.defs, rank, [u], left, top);
  }

  lemma JoinedIsInert(defs: map<string, Define>, t: Token, u: Token)
    requires Inert(defs, [t]) && Inert(defs, [u]) && t.typ == u.typ == TT_STRING
    ensures |t.str| >= 2 && |u.str| >= 2 && Inert(defs, [JoinStrings(t, u)])
  {
    assert t in [t] && u in [u];
    assert JoinStrings(t, u).str[0] == '"';
  }

  lemma StepAtNothing(s: Source)
    requires Valid(s) && ReadSourceToken(s).NotRead?
    ensures forall fuel :: ReadStep(s, fuel) == Stops(ReadSourceToken(s).src)
  {
  }

  lemma LeftIsReturnable(s': Source, c: Context, rank: map<string, nat>, left: seq<Token>, ts: seq<Token>, top: nat)
    requires Leaves(s', c, rank, left, ts, top) && Returnable(c, rank, ts, top)
    ensures At(s', c, left) && Returnable(c, rank, left, top)
  {
  }

  /** All calls together return. */
  lemma {:induction false} AllReturn(s: Source, c: Context, rank: map<string, nat>, ts: seq<Token>, top: nat)
      returns (n: nat)
    requires At(s, c, ts) && Returnable(c, rank, ts, top)
    ensures Valid(s) && ReadAll(s, n, n, n).Some?
    decreases Weigh(c.defs, rank, ts, [], top), |ts|
  {
    hide ReadToken, At, Weigh, Ranked, PlainTable, PlainStream, Leaves;
    AtIsValid(s, c, ts);
    var m, left := TokenReturns(s, c, rank, ts, top);
    var r := ReadToken(s, m, m);
    n := m + 1;
    MoreToken(s, m, n, m, n);
    if r.Got? {
      LeftIsReturnable(r.src, c, rank, left, ts, top);
      var i := AllReturn(r.src, c, rank, left, top);
      n := Larger(m, i) + 1;
      MoreToken(s, m, n, m, n);
      MoreAll(r.src, i, i, i, n - 1, n, n);
    }
  }

  // ------------------------------------------------------------- no cycles

  /** Some body of the define `name` names a define of `names`. */
  ghost predicate NamesOneOf(defs: map<string, Define>, name: string, names: set<string>)
    requires name in defs
  {
    exists t <- defs[name].body :: Names(defs, t, defs[name].parms) && t.str in names
  }

  /** A set of defines each of which names another of the set. */
  ghost predicate NamesItself(defs: map<string, Define>, names: set<string>) {
    forall name <- names :: name in defs && NamesOneOf(defs, name, names)
  }

  ghost predicate Acyclic(defs: map<string, Define>) {
    forall names :: NamesItself(defs, names) ==> names == {}
  }

  /** Ranks for the defines of `rank` are good as far as they go. */
  ghost predicate RankedSoFar(defs: map<string, Define>, rank: map<string, nat>) {
    forall name <- rank :: name in defs && rank[name] < |rank| && BodyBelow(defs, rank, name, rank[name])
  }

  lemma BodyStaysBelow(defs: map<string, Define>, rank: map<string, nat>, rank': map<string, nat>, name: string, k: nat)
    requires name in defs && BodyBelow(defs, rank, name, k) && forall other <- rank ::
         other in rank' && rank'[other] == rank[other]
    ensures BodyBelow(defs, rank', name, k)
  {
  }

  lemma RankOne(defs: map<string, Define>, rank: map<string, nat>, name: string)
    requires RankedSoFar(defs, rank) && name in defs && name !in rank && !NamesOneOf(defs, name, defs.Keys - rank.Keys)
    ensures RankedSoFar(defs, rank[name := |rank|])
    ensures defs.Keys - rank[name := |rank|].Keys < defs.Keys - rank.Keys
  {
    hide NamesOneOf, BodyBelow;
    NamesRanked(defs, rank, name);
    var rank' := rank[name := |rank|];
    assert rank'.Keys == rank.Keys + {name} && |rank'| == |rank| + 1;
    assert name in defs.Keys - rank.Keys;
    forall other <- rank'
      ensures other in defs && rank'[other] < |rank'| && BodyBelow(defs, rank', other, rank'[other])
    {
      BodyStaysBelow(defs, rank, rank', other, rank'[other]);
    }
  }

  lemma {:induction false} FindRanks(defs: map<string, Define>, rank: map<string, nat>) returns (full: map<string, nat>)
    requires Acyclic(defs) && RankedSoFar(defs, rank)
    ensures Ranked(defs, full, |full|)
    decreases defs.Keys - rank.Keys
  {
    hide NamesOneOf, RankedSoFar;
    var left := defs.Keys - rank.Keys;
    if left == {} {
      full := rank;
      AllRanked(defs, rank);
    } else {
      assert !NamesItself(defs, left);
      var name :| name in left && !NamesOneOf(defs, name, left);
      RankOne(defs, rank, name);
      full := FindRanks(defs, rank[name := |rank|]);
    }
  }

  lemma AllRanked(defs: map<string, Define>, rank: map<string, nat>)
    requires RankedSoFar(defs, rank) && defs.Keys - rank.Keys == {}
    ensures Ranked(defs, rank, |rank|)
  {
    forall name | name in defs ensures name in rank { assert name !in defs.Keys - rank.Keys; }
  }

  lemma NamesRanked(defs: map<string, Define>, rank: map<string, nat>, name: string)
    requires RankedSoFar(defs, rank) && name in defs && !NamesOneOf(defs, name, defs.Keys - rank.Keys)
    ensures BodyBelow(defs, rank, name, |rank|)
  {
    hide BodyBelow;
    NamesAreRanked(defs, rank, name);
    assert forall other <- rank :: rank[other] < |rank|;
    AllBelow(defs, rank, name, |rank|);
  }

  lemma NamesAreRanked(defs: map<string, Define>, rank: map<string, nat>, name: string)
    requires name in defs && !NamesOneOf(defs, name, defs.Keys - rank.Keys)
    ensures forall t <- defs[name].body :: Names(defs, t, defs[name].parms) ==> t.str in rank
  {
  }

  lemma AllBelow(defs: map<string, Define>, rank: map<string, nat>, name: string, k: nat)
    requires name in defs && forall t <- defs[name].body :: Names(defs, t, defs[name].parms) ==> t.str in rank
    requires forall other <- rank :: rank[other] < k
    ensures BodyBelow(defs, rank, name, k)
  {
  }

  lemma NothingRanked(defs: map<string, Define>)
    ensures RankedSoFar(defs, map[])
  {
  }

  /** Where no bodies name one another in a cycle, reading comes to an end, at the end of
      the tokens or at an error: some bounds are enough, and all larger ones give the
      same. That is so for defines of both kinds, with #, but without ##, which makes
      names that stand in no body. */
  lemma AcyclicReturns(s: Source, c: Context, ts: seq<Token>) returns (n: nat)
    requires At(s, c, ts) && c.skip == 0 && c.indents == [] && Acyclic(c.defs) && PlainTable(c.defs) && PlainStream(ts)
    ensures Valid(s) && ReadAll(s, n, n, n).Some?
    ensures forall calls, rounds, fuel :: calls >= n && rounds >= n && fuel >= n ==>
         ReadAll(s, calls, rounds, fuel) == ReadAll(s, n, n, n)
  {
    hide ReadAll, At, PlainTable, PlainStream, Ranked, Acyclic;
    NothingRanked(c.defs);
    var rank := FindRanks(c.defs, map[]);
    n := AllReturn(s, c, rank, ts, |rank|);
    forall calls, rounds, fuel | calls >= n && rounds >= n && fuel >= n
      ensures ReadAll(s, calls, rounds, fuel) == ReadAll(s, n, n, n)
    {
      MoreAll(s, n, n, n, calls, rounds, fuel);
    }
  }

  lemma SubstituteKeeps(t: Token, rest: seq<Token>)
    requires t.str != "#"
    ensures Substitute([t] + rest, [], []) == [t] + Substitute(rest, [], [])
  {
    assert ([t] + rest)[1..] == rest;
  }

  lemma MergesThree(a: Token, merge: Token, b: Token)
    requires a.typ == b.typ == TT_NAME && IsMerge(merge)
    ensures MergePass([a, merge, b]) == Some([a.(str := a.str + b.str)])
  {
    hide IsMerge;
    var pasted := a.(str := a.str + b.str);
    assert [a, merge, b][3..] == [] && [pasted] + [] == [pasted];
    assert MergePass([pasted]) == Some([pasted]) by {
      assert [pasted][1..] == [] && MergePass([]) == Some([]);
    }
  }

  lemma PastedBody(d: Define, a: Token, merge: Token, b: Token)
    requires d.parms == [] && d.body == [a, merge, b] && a.typ == b.typ == TT_NAME && IsMerge(merge)
    requires a.str != "#" && merge.str != "#" && b.str != "#"
    ensures BodyOf(d) == Some([a.(str := a.str + b.str)])
  {
    hide IsMerge, MergePass, Substitute;
    assert d.body == [a] + ([merge] + ([b] + []));
    SubstituteKeeps(a, [merge] + ([b] + []));
    SubstituteKeeps(merge, [b] + []);
    SubstituteKeeps(b, []);
    NothingSubstituted();
    assert [a] + ([merge] + ([b] + [])) == [a, merge, b];
    MergesThree(a, merge, b);
  }

  lemma NothingSubstituted()
    ensures Substitute([], [], []) == []
  {
  }

  /** With ## it can be otherwise: after `#define AB A##B`, reading AB never comes to an
      end, though its body names no define. */
  lemma PastedNeverEnds(s: Source, c: Context, d: Define, a: Token, merge: Token, b: Token, t: Token, calls: nat,
          rounds: nat, fuel: nat)
    requires At(s, c, [t]) && c.skip == 0 && c.defs == map[d.name := d] && t.typ == TT_NAME
    requires t.str == d.name == a.str + b.str && t.str != "##"
    requires d.parms == [] && d.body == [a, merge, b] && a.typ == b.typ == TT_NAME && a.str != "" && b.str != ""
    requires IsMerge(merge)
    requires merge.typ == TT_PUNCTUATION && merge.str == "##" && a.str != "#" && b.str != "#" && !IsMerge(a)
    ensures Acyclic(c.defs) && ReadAll(s, calls, rounds, fuel) == None
  {
    hide IsMerge, ReadAll, Acyclic, T.PlainDefines, T.Cyclic;
    assert |t.str| > |a.str| && |t.str| > |b.str|;
    OtherNamesAcyclic(c.defs, d);
    PastedBody(d, a, merge, b);
    PastedIsCyclic(c.defs, d, a.(str := t.str));
    NameIsPlain(t);
    T.CycleNeverEnds(s, c, [t], {d.name}, t, calls, rounds, fuel);
  }

  lemma NameIsPlain(t: Token)
    requires t.typ == TT_NAME
    ensures T.PlainTokens([t]) && t in [t]
  {
  }

  lemma OtherNamesAcyclic(defs: map<string, Define>, d: Define)
    requires defs == map[d.name := d] && forall t <- d.body :: t.str != d.name
    ensures Acyclic(defs)
  {
    hide NamesItself;
    forall names | NamesItself(defs, names) ensures names == {} {
      assert defs.Keys == {d.name};
      if names != {} { MustNameItself(defs, d, names); }
    }
  }

  lemma MustNameItself(defs: map<string, Define>, d: Define, names: set<string>)
    requires defs.Keys == {d.name} && defs[d.name] == d && NamesItself(defs, names) && names != {}
    ensures exists t <- d.body :: t.str == d.name
  {
    hide NamesOneOf;
    forall name | name in names ensures name == d.name { assert name in defs; }
    var name :| name in names;
    NamedToken(defs, d, names);
  }

  lemma NamedToken(defs: map<string, Define>, d: Define, names: set<string>)
    requires d.name in defs && defs[d.name] == d && NamesOneOf(defs, d.name, names)
    requires forall name <- names :: name == d.name
    ensures exists t <- d.body :: t.str == d.name
  {
    hide Names;
    var t :| t in d.body && t.str in names;
  }

  lemma PastedIsCyclic(defs: map<string, Define>, d: Define, pasted: Token)
    requires defs == map[d.name := d] && BodyOf(d) == Some([pasted]) && pasted.typ == TT_NAME && pasted.str == d.name
    ensures T.PlainDefines(defs) && T.Cyclic(defs, {d.name})
  {
    hide BodyOf;
    assert pasted in [pasted] && T.Mentions(defs, d.name, {d.name});
  }
}
