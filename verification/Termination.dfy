/** When macro expansion ends: a condition on the table of defines alone, for the
    rounds of PC_ReadToken's loop and for calls of PC_ReadToken. */
module Termination {
  import opened Options
  import opened Tokens
  import opened Macros
  import opened Precompiler
  import opened Streams
  import opened Expansion
  import opened Calls
  import opened StringJoining

  /** Every token is plain, or names a define in `names`. */
  predicate Covered(defs: map<string, Define>, ts: seq<Token>, names: set<string>) {
    forall t <- ts :: !IsDirective(t) && (IsDefineName(defs, t) ==> t.str in names)
  }

  predicate UsableWith(defs: map<string, Define>, name: string, names: set<string>)
    requires name in defs
  {
    BodyOf(defs[name]).Some? && Covered(defs, BodyOf(defs[name]).value, names)
  }

  /** The defines whose bodies mention only defines of `names`. */
  function Next(defs: map<string, Define>, names: set<string>): set<string> {
    set name | name in defs && UsableWith(defs, name, names)
  }

  /** The defines that expand with at most `k` defines inside one another. */
  function Level(defs: map<string, Define>, k: nat): set<string> {
    if k == 0 then {} else Next(defs, Level(defs, k - 1))
  }

  /** The defines that expand at all. */
  function Grounded(defs: map<string, Define>): set<string> { Level(defs, |defs|) }

  lemma NextMonotone(defs: map<string, Define>, a: set<string>, b: set<string>)
    requires a <= b
    ensures Next(defs, a) <= Next(defs, b)
  {
  }

  lemma {:induction false} LevelsGrow(defs: map<string, Define>, k: nat)
    ensures Level(defs, k) <= Level(defs, k + 1) <= defs.Keys
  {
    if k > 0 {
      LevelsGrow(defs, k - 1);
      NextMonotone(defs, Level(defs, k - 1), Level(defs, k));
    }
  }

  /** A level either is the last new one or adds at least one define. */
  lemma {:induction false} LevelsStopOrGrow(defs: map<string, Define>, k: nat)
    ensures Level(defs, k) == Level(defs, k + 1) || |Level(defs, k + 1)| >= k + 1
  {
    hide UsableWith, Next;
    LevelsGrow(defs, k);
    if Level(defs, k) != Level(defs, k + 1) {
      SmallerCardinality(Level(defs, k), Level(defs, k + 1));
      if k > 0 {
        LevelsStopOrGrow(defs, k - 1);
      }
    }
  }

  lemma SmallerCardinality<T>(a: set<T>, b: set<T>)
    requires a < b
    ensures |a| < |b|
  {
    assert b == a + (b - a);
    assert |b| == |a| + |b - a|;
    var x :| x in b && x !in a;
    assert b - a != {};
  }

  lemma GroundedIsStable(defs: map<string, Define>)
    ensures Next(defs, Grounded(defs)) == Grounded(defs)
  {
    var n := |defs|;
    LevelsStopOrGrow(defs, n);
    LevelsGrow(defs, n);
    if Level(defs, n) != Level(defs, n + 1) {
      SubsetCardinality(Level(defs, n + 1), defs.Keys);
    }
  }

  lemma SubsetCardinality<T>(a: set<T>, b: set<T>)
    requires a <= b
    ensures |a| <= |b|
  {
    if a != b { SmallerCardinality(a, b); }
  }

  lemma {:induction false} LevelsAreGrounded(defs: map<string, Define>, k: nat)
    ensures Level(defs, k) <= Grounded(defs)
  {
    GroundedIsStable(defs);
    if k > 0 {
      LevelsAreGrounded(defs, k - 1);
      NextMonotone(defs, Level(defs, k - 1), Grounded(defs));
    }
  }

  lemma NothingCovered(defs: map<string, Define>, names: set<string>)
    ensures Covered(defs, [], names)
  {
  }

  lemma CoveredFirst(defs: map<string, Define>, ts: seq<Token>, names: set<string>)
    requires ts != []
    ensures Covered(defs, ts, names)
       <==> !IsDirective(ts[0]) && (IsDefineName(defs, ts[0]) ==> ts[0].str in names) && Covered(defs, ts[1..], names)
  {
    assert ts == [ts[0]] + ts[1..];
  }

  lemma OnLevel(defs: map<string, Define>, name: string, k: nat)
    requires name in defs
    ensures name in Level(defs, k)
         <==> k > 0 && BodyOf(defs[name]).Some? && Covered(defs, BodyOf(defs[name]).value, Level(defs, k - 1))
  {
  }

  lemma {:induction false} ExpandsOnLevel(defs: map<string, Define>, ts: seq<Token>, k: nat)
    ensures Expand(defs, ts, k).Some? <==> Covered(defs, ts, Level(defs, k))
    decreases k, |ts|
  {
    hide Covered, Level, BodyOf;
    if ts == [] {
      NothingCovered(defs, Level(defs, k));
    } else {
      ExpandsOnLevel(defs, ts[1..], k);
      CoveredFirst(defs, ts, Level(defs, k));
      if ts[0].str in defs { OnLevel(defs, ts[0].str, k); }
      if IsDefineName(defs, ts[0]) && k > 0 && BodyOf(defs[ts[0].str]).Some? {
        ExpandsOnLevel(defs, BodyOf(defs[ts[0].str]).value, k - 1);
      }
    }
  }

  /** The rounds of the loop get to the end of a stream of object-like defines,
      without one that fails, exactly when every define it names is grounded; then
      they yield the full expansion. */
  lemma ReadingEnds(s: Source, c: Context, ts: seq<Token>, fuel: nat)
    requires At(s, c, ts) && c.skip == 0 && ObjectLike(c.defs) && (forall t <- ts :: !IsDirective(t))
    ensures (exists n :: EndsAfter(s, n, fuel)) <==> Covered(c.defs, ts, Grounded(c.defs))
    ensures forall n :: EndsAfter(s, n, fuel) ==>
              Expand(c.defs, ts, |c.defs|) == Some(Advance(s, n, fuel).value.out)
  {
    assert ts + [] == ts;
    ExpandsOnLevel(c.defs, ts, |c.defs|);
    if Covered(c.defs, ts, Grounded(c.defs)) {
      var n, s' := ReadExpands(s, c, ts, [], |c.defs|, fuel);
      assert EndsAfter(s, n, fuel);
    }
    forall n | EndsAfter(s, n, fuel)
      ensures Covered(c.defs, ts, Grounded(c.defs))
      ensures Expand(c.defs, ts, |c.defs|) == Some(Advance(s, n, fuel).value.out)
    {
      ExpandsIfRead(s, c, ts, n, fuel);
      ExpandsOnLevel(c.defs, ts, n);
      LevelsAreGrounded(c.defs, n);
      var m, s' := ReadExpands(s, c, ts, [], |c.defs|, fuel);
      SameEnd(s, n, m, fuel);
    }
  }

  /** `n` rounds read everything there is. */
  ghost predicate EndsAfter(s: Source, n: nat, fuel: nat) {
    && Valid(s) && Advance(s, n, fuel).Some?
    && Solo(Advance(s, n, fuel).value.src) && Stream(Advance(s, n, fuel).value.src) == []
  }

  lemma StopsForGood(s: Source, n: nat, fuel: nat)
    requires Valid(s) && Solo(s) && Stream(s) == [] && n > 0
    ensures Advance(s, n, fuel) == None
  {
    assert s.tokens == [] && s.scripts[0].toks == [];
    assert ReadStep(s, fuel).Stops?;
  }

  /** Reading ends in one way only. */
  lemma SameEnd(s: Source, n: nat, m: nat, fuel: nat)
    requires EndsAfter(s, n, fuel) && EndsAfter(s, m, fuel)
    ensures Advance(s, n, fuel).value.out == Advance(s, m, fuel).value.out
  {
    hide Advance, Stream, Solo;
    var (a, b) := if n <= m then (n, m) else (m, n);
    var s' := Advance(s, a, fuel).value.src;
    AdvanceNothing(s', fuel);
    if a < b { StopsForGood(s', b - a, fuel); }
    AdvanceMore(s, a, b - a, fuel);
    assert Advance(s, a, fuel).value.out + [] == Advance(s, a, fuel).value.out;
  }

  /** Tokens have one full expansion, whatever the depth it is found at. */
  lemma ExpandedIsUnique(defs: map<string, Define>, ts: seq<Token>, depth: nat, depth': nat)
    requires Expanded(defs, ts, false, depth).Some? && Expanded(defs, ts, false, depth').Some?
    ensures Expanded(defs, ts, false, depth) == Expanded(defs, ts, false, depth')
  {
    hide Expanded, Need, Advance;
    var s := Source([], [Script(0, "", ts, true)], defs, [], 0, 0, map[], "");
    var c := ContextOf(s);
    assert ts + [] == ts && At(s, c, ts);
    var fuel := Need(defs, ts, 0, depth) + Need(defs, ts, 0, depth');
    var n, end := ReadsExpanded(s, c, ts, [], depth, fuel);
    var m, end' := ReadsExpanded(s, c, ts, [], depth', fuel);
    SameEnd(s, n, m, fuel);
  }

  /** The body of `name` mentions a define of `names`. */
  ghost predicate Mentions(defs: map<string, Define>, name: string, names: set<string>)
    requires name in defs
  {
    BodyOf(defs[name]).Some? && exists t <- BodyOf(defs[name]).value :: IsDefineName(defs, t) && t.str in names
  }

  /** A set of defines each of which mentions another of the set: the defines of
      a cycle, for one. */
  ghost predicate Cyclic(defs: map<string, Define>, names: set<string>) {
    forall name <- names :: name in defs && Mentions(defs, name, names)
  }

  lemma UnusableMentions(defs: map<string, Define>, name: string, names: set<string>)
    requires ObjectLike(defs) && name in defs && BodyOf(defs[name]).Some? && !UsableWith(defs, name, names)
    ensures Mentions(defs, name, defs.Keys - names)
  {
    hide BodyOf;
    var t :| t in BodyOf(defs[name]).value && !(!IsDirective(t) && (IsDefineName(defs, t) ==> t.str in names));
    assert !IsDirective(t);
  }

  /** Without a cycle every define is grounded. */
  lemma AcyclicIsGrounded(defs: map<string, Define>)
    requires ObjectLike(defs) && (forall name <- defs :: BodyOf(defs[name]).Some?)
    requires forall names :: Cyclic(defs, names) ==> names == {}
    ensures Grounded(defs) == defs.Keys
  {
    hide UsableWith, Mentions, ObjectLike, Level;
    var rest := defs.Keys - Grounded(defs);
    GroundedIsStable(defs);
    LevelsGrow(defs, |defs|);
    forall name <- rest ensures Mentions(defs, name, rest) {
      UnusableMentions(defs, name, Grounded(defs));
    }
    assert Cyclic(defs, rest);
  }

  /** With a cycle no member of it is grounded. */
  lemma {:induction false} CyclicIsNotGrounded(defs: map<string, Define>, names: set<string>, k: nat)
    requires Cyclic(defs, names)
    ensures names !! Level(defs, k)
  {
    hide Mentions, UsableWith;
    if k > 0 {
      CyclicIsNotGrounded(defs, names, k - 1);
      forall name <- names ensures name !in Level(defs, k) {
        MentionedIsNotUsableWith(defs, names, Level(defs, k - 1), name);
      }
    }
  }

  lemma MentionedIsNotUsableWith(defs: map<string, Define>, names: set<string>, below: set<string>, name: string)
    requires name in defs && Mentions(defs, name, names) && names !! below
    ensures !UsableWith(defs, name, below)
  {
    var t :| t in BodyOf(defs[name]).value && IsDefineName(defs, t) && t.str in names;
    assert t.str !in below;
  }

  // ---------------------------------------------------- calls of PC_ReadToken

  /** Calling PC_ReadToken until it fails returns the full expansion of a stream
      that has one, with adjacent strings joined. */
  lemma ReadAllExpands(s: Source, c: Context, ts: seq<Token>, depth: nat, fuel: nat) returns (n: nat, end: Source)
    requires At(s, c, ts) && c.skip == 0 && Expand(c.defs, ts, depth).Some?
    requires Quoted(Expand(c.defs, ts, depth).value) && Fits(Expand(c.defs, ts, depth).value)
    ensures forall calls, rounds :: calls > n && rounds > n ==>
              ReadAll(s, calls, rounds, fuel) == Some((Join(Expand(c.defs, ts, depth).value), end))
  {
    hide Expand, Join, Fits, Quoted, Advance;
    var out := Expand(c.defs, ts, depth).value;
    var s';
    assert ts + [] == ts;
    n, s' := ReadExpands(s, c, ts, [], depth, fuel);
    end := ReadSourceToken(s').src;
    EmptyReadsNothing(s');
    AtValid(s, c, ts);
    forall calls, rounds | calls > n && rounds > n ensures ReadAll(s, calls, rounds, fuel) == Some((Join(out), end)) {
      ReadAllJoins(s, n, calls, rounds, fuel, out, end);
    }
  }

  lemma EmptyReadsNothing(s: Source)
    requires Solo(s) && Stream(s) == []
    ensures Valid(s) && ReadSourceToken(s).NotRead?
  {
    assert s.tokens == [] && s.scripts[0].toks == [];
  }

  lemma AtValid(s: Source, c: Context, ts: seq<Token>)
    requires At(s, c, ts)
    ensures Valid(s)
  {
  }

  ghost predicate PlainTokens(ts: seq<Token>) {
    forall t <- ts :: !IsDirective(t) && t.typ != TT_STRING
  }

  /** Every define is object-like and usable, and holds no directive and no string. */
  ghost predicate PlainDefines(defs: map<string, Define>) {
    forall name <- defs :: BodyOf(defs[name]).Some? && PlainTokens(BodyOf(defs[name]).value)
  }

  lemma PlainIsObjectLike(defs: map<string, Define>)
    requires PlainDefines(defs)
    ensures ObjectLike(defs)
  {
  }

  lemma PlainConcat(ts: seq<Token>, us: seq<Token>)
    requires PlainTokens(ts) && PlainTokens(us)
    ensures PlainTokens(ts + us)
  {
  }

  lemma PlainParts(t: Token, ts: seq<Token>)
    requires PlainTokens([t] + ts)
    ensures !IsDirective(t) && t.typ != TT_STRING && PlainTokens(ts)
  {
    assert t in [t] + ts && forall u <- ts :: u in [t] + ts;
  }

  /** What a call that returns has done: a token means rounds that yield it, and a
      failure means that the stream is used up. */
  lemma {:induction false} CallAdvances(s: Source, c: Context, ts: seq<Token>, rounds: nat, fuel: nat)
      returns (n: nat, later: seq<Token>)
    requires At(s, c, ts) && c.skip == 0 && PlainDefines(c.defs) && PlainTokens(ts)
    ensures ReadToken(s, rounds, fuel).Got? ==>
              var r := ReadToken(s, rounds, fuel);
              Valid(s) && Advance(s, n, fuel) == Some(Run([r.token], r.src)) && At(r.src, c, later)
                  && PlainTokens(later)
    ensures ReadToken(s, rounds, fuel).NotRead? ==> EndsAfter(s, n, fuel)
    decreases rounds
  {
    hide ReadStep, BodyOf, PlainTokens;
    n, later := 0, [];
    if rounds > 0 {
      if ts == [] {
        EmptyReadsNothing(s);
        StepAtEnd(s, fuel);
      } else {
        assert ts == [ts[0]] + ts[1..];
        PlainParts(ts[0], ts[1..]);
        StepOnToken(s, c, ts[0], ts[1..], fuel);
        if IsDefineName(c.defs, ts[0]) {
          var more := BodyOf(c.defs[ts[0].str]).value + ts[1..];
          PlainConcat(BodyOf(c.defs[ts[0].str]).value, ts[1..]);
          var m;
          m, later := CallAdvances(ReadStep(s, fuel).src, c, more, rounds - 1, fuel);
          AdvanceSilently(s, m, fuel);
          n := m + 1;
        } else {
          n, later := 1, ts[1..];
          assert Advance(ReadStep(s, fuel).src, 0, fuel) == Some(Run([], ReadStep(s, fuel).src))
              && [ts[0]] + [] == [ts[0]];
        }
      }
    }
  }

  lemma EndsLater(s: Source, n: nat, run: Run, m: nat, fuel: nat)
    requires Valid(s) && Advance(s, n, fuel) == Some(run) && EndsAfter(run.src, m, fuel)
    ensures EndsAfter(s, n + m, fuel)
  {
    hide Advance, Stream, Solo;
    AdvanceMore(s, n, m, fuel);
  }

  lemma {:induction false} CallsAdvance(s: Source, c: Context, ts: seq<Token>, calls: nat, rounds: nat, fuel: nat)
      returns (n: nat)
    requires At(s, c, ts) && c.skip == 0 && PlainDefines(c.defs) && PlainTokens(ts)
    requires ReadAll(s, calls, rounds, fuel).Some?
    ensures EndsAfter(s, n, fuel)
    decreases calls
  {
    hide ReadToken, PlainTokens, PlainDefines, EndsAfter, Advance;
    var later;
    n, later := CallAdvances(s, c, ts, rounds, fuel);
    if ReadToken(s, rounds, fuel).Got? {
      var Got(t, s1) := ReadToken(s, rounds, fuel);
      var m := CallsAdvance(s1, c, later, calls - 1, rounds, fuel);
      EndsLater(s, n, Run([t], s1), m, fuel);
      n := n + m;
    }
  }

  lemma CoveredStreamEnds(s: Source, c: Context, ts: seq<Token>, fuel: nat) returns (n: nat, end: Source)
    requires At(s, c, ts) && c.skip == 0 && PlainDefines(c.defs) && PlainTokens(ts)
    requires Covered(c.defs, ts, Grounded(c.defs))
    ensures Expand(c.defs, ts, |c.defs|).Some?
    ensures forall calls, rounds :: calls > n && rounds > n ==>
              ReadAll(s, calls, rounds, fuel) == Some((Expand(c.defs, ts, |c.defs|).value, end))
  {
    hide Expand, Join, Fits, ReadAll, Covered, PlainDefines;
    ExpandsOnLevel(c.defs, ts, |c.defs|);
    ExpansionIsPlain(c.defs, ts, |c.defs|);
    PlainJoins(Expand(c.defs, ts, |c.defs|).value);
    n, end := ReadAllExpands(s, c, ts, |c.defs|, fuel);
  }

  lemma EndedStreamIsCovered(s: Source, c: Context, ts: seq<Token>, calls: nat, rounds: nat, fuel: nat)
    requires At(s, c, ts) && c.skip == 0 && PlainDefines(c.defs) && PlainTokens(ts)
    requires ReadAll(s, calls, rounds, fuel).Some?
    ensures Covered(c.defs, ts, Grounded(c.defs))
  {
    hide ReadAll, Covered, PlainDefines, EndsAfter;
    PlainIsObjectLike(c.defs);
    NoDirectiveIn(ts);
    var n := CallsAdvance(s, c, ts, calls, rounds, fuel);
    ReadingEnds(s, c, ts, fuel);
  }

  /** Calls of PC_ReadToken on plain defines get to the end of a stream, in any
      number of calls and of rounds a call, exactly when every define the stream
      names is grounded. */
  lemma CallsEnd(s: Source, c: Context, ts: seq<Token>, fuel: nat)
    requires At(s, c, ts) && c.skip == 0 && PlainDefines(c.defs) && PlainTokens(ts)
    ensures (exists calls, rounds :: ReadAll(s, calls, rounds, fuel).Some?) <==> Covered(c.defs, ts, Grounded(c.defs))
  {
    hide ReadAll, Covered, PlainDefines, Expand;
    if Covered(c.defs, ts, Grounded(c.defs)) {
      var n, end := CoveredStreamEnds(s, c, ts, fuel);
      assert ReadAll(s, n + 1, n + 1, fuel).Some?;
    }
    forall calls, rounds | ReadAll(s, calls, rounds, fuel).Some? ensures Covered(c.defs, ts, Grounded(c.defs)) {
      EndedStreamIsCovered(s, c, ts, calls, rounds, fuel);
    }
  }

  lemma NoDirectiveIn(ts: seq<Token>)
    requires PlainTokens(ts)
    ensures forall t <- ts :: !IsDirective(t)
  {
  }

  lemma {:induction false} ExpansionIsPlain(defs: map<string, Define>, ts: seq<Token>, depth: nat)
    requires PlainDefines(defs) && PlainTokens(ts) && Expand(defs, ts, depth).Some?
    ensures PlainTokens(Expand(defs, ts, depth).value)
    decreases depth, |ts|
  {
    hide BodyOf;
    if ts != [] {
      assert ts == [ts[0]] + ts[1..];
      PlainParts(ts[0], ts[1..]);
      ExpansionIsPlain(defs, ts[1..], depth);
      if IsDefineName(defs, ts[0]) { ExpansionIsPlain(defs, BodyOf(defs[ts[0].str]).value, depth - 1); }
    }
  }

  /** Without strings there is nothing to join. */
  lemma {:induction false} PlainJoins(ts: seq<Token>)
    requires PlainTokens(ts)
    ensures Quoted(ts) && Fits(ts) && Join(ts) == ts
    decreases ts
  {
    if ts != [] {
      assert ts == [ts[0]] + ts[1..];
      PlainJoins(ts[1..]);
    }
  }

  /** A stream that names a define of a cycle is never read to its end: no number
      of calls and of rounds is enough. */
  lemma CycleNeverEnds(s: Source, c: Context, ts: seq<Token>, names: set<string>, t: Token, calls: nat, rounds: nat,
          fuel: nat)
    requires At(s, c, ts) && c.skip == 0 && PlainDefines(c.defs) && PlainTokens(ts)
    requires Cyclic(c.defs, names) && t in ts && t.typ == TT_NAME && t.str in names
    ensures ReadAll(s, calls, rounds, fuel) == None
  {
    hide ReadAll, Mentions, PlainDefines;
    CyclicIsNotGrounded(c.defs, names, |c.defs|);
    assert t.str in c.defs;
    CallsEnd(s, c, ts, fuel);
  }

  /** Without a cycle it always is, and the calls return its full expansion. */
  lemma AcyclicEnds(s: Source, c: Context, ts: seq<Token>, fuel: nat) returns (n: nat, end: Source)
    requires At(s, c, ts) && c.skip == 0 && ObjectLike(c.defs) && (forall t <- ts :: !IsDirective(t))
    requires (forall name <- c.defs :: BodyOf(c.defs[name]).Some?) && forall names :: Cyclic(c.defs, names) ==>
         names == {}
    ensures Expand(c.defs, ts, |c.defs|).Some?
    ensures var out := Expand(c.defs, ts, |c.defs|).value;
            Quoted(out) && Fits(out) ==> forall calls, rounds :: calls > n && rounds > n ==>
              ReadAll(s, calls, rounds, fuel) == Some((Join(out), end))
  {
    hide Expand, Join, Fits, Quoted, ReadAll, Cyclic, ObjectLike;
    AcyclicIsGrounded(c.defs);
    ExpandsOnLevel(c.defs, ts, |c.defs|);
    n, end := 0, s;
    if Quoted(Expand(c.defs, ts, |c.defs|).value) && Fits(Expand(c.defs, ts, |c.defs|).value) {
      n, end := ReadAllExpands(s, c, ts, |c.defs|, fuel);
    }
  }
}
