/** Object-like defines: reading a stream of tokens to its end is the recursive
    full expansion of that stream, and it ends exactly when the expansion does. */
module Expansion {
  import opened Options
  import opened Tokens
  import opened Macros
  import opened Precompiler
  import opened Streams

  predicate IsDirective(t: Token) { StartsWith(t, '#') || StartsWith(t, '$') }

  predicate IsDefineName(defs: map<string, Define>, t: Token) { t.typ == TT_NAME && t.str in defs }

  /** What an object-like define stands for; None when using it is an error. */
  function BodyOf(d: Define): (r: Option<seq<Token>>)
    ensures r.Some? ==> r.value != []
  {
    if d.parms != [] then None
    else
      var merged := MergePass(Substitute(d.body, [], []));
      if merged == Some([]) then None else merged
  }

  lemma BodyIsSpliced(s: Source, d: Define, fuel: nat)
    requires Valid(s) && BodyOf(d).Some?
    ensures ExpandDefineIntoSource(s, d, fuel) == Splice(s, BodyOf(d)) && Splice(s, BodyOf(d)).Ok?
  {
  }

  /** The full recursive expansion, with at most `depth` defines inside one
      another. */
  function Expand(defs: map<string, Define>, ts: seq<Token>, depth: nat): (r: Option<seq<Token>>)
    decreases depth, |ts|
  {
    if ts == [] then Some([])
    else
      var first :=
        if IsDirective(ts[0]) then None
        else if !IsDefineName(defs, ts[0]) then Some([ts[0]])
        else if depth == 0 || BodyOf(defs[ts[0].str]).None? then None
        else Expand(defs, BodyOf(defs[ts[0].str]).value, depth - 1);
      match (first, Expand(defs, ts[1..], depth))
      case (Some(a), Some(b)) => Some(a + b)
      case _ => None
  }

  /** The result is fully expanded. */
  lemma {:induction false} ExpandLeavesNoDefine(defs: map<string, Define>, ts: seq<Token>, depth: nat)
    requires Expand(defs, ts, depth).Some?
    ensures forall t <- Expand(defs, ts, depth).value :: !IsDefineName(defs, t) && !IsDirective(t)
    decreases depth, |ts|
  {
    if ts != [] {
      ExpandLeavesNoDefine(defs, ts[1..], depth);
      if IsDefineName(defs, ts[0]) {
        ExpandLeavesNoDefine(defs, BodyOf(defs[ts[0].str]).value, depth - 1);
      }
    }
  }

  lemma {:induction false} ExpandConcat(defs: map<string, Define>, ts: seq<Token>, us: seq<Token>, depth: nat)
    ensures Expand(defs, ts + us, depth) == match (Expand(defs, ts, depth), Expand(defs, us, depth))
                                            case (Some(a), Some(b)) => Some(a + b)
                                            case _ => None
    decreases ts
  {
    if ts == [] {
      assert ts + us == us;
      if Expand(defs, us, depth).Some? { assert [] + Expand(defs, us, depth).value == Expand(defs, us, depth).value; }
    } else {
      assert (ts + us)[0] == ts[0] && (ts + us)[1..] == ts[1..] + us;
      ExpandConcat(defs, ts[1..], us, depth);
      assert forall a: seq<Token>, b: seq<Token>, c: seq<Token> :: a + (b + c) == (a + b) + c;
    }
  }

  lemma {:induction false} ExpandDeeper(defs: map<string, Define>, ts: seq<Token>, depth: nat, depth': nat)
    requires Expand(defs, ts, depth).Some? && depth <= depth'
    ensures Expand(defs, ts, depth') == Expand(defs, ts, depth)
    decreases depth, |ts|
  {
    if ts != [] {
      ExpandDeeper(defs, ts[1..], depth, depth');
      if IsDefineName(defs, ts[0]) {
        ExpandDeeper(defs, BodyOf(defs[ts[0].str]).value, depth - 1, depth' - 1);
      }
    }
  }

  // ------------------------------------------------ reading is expanding

  /** One round on a token that is no directive. */
  lemma StepOnToken(s: Source, c: Context, t: Token, ts: seq<Token>, fuel: nat)
    requires At(s, c, [t] + ts) && c.skip == 0 && !IsDirective(t)
    ensures !IsDefineName(c.defs, t) ==>
              ReadStep(s, fuel).Returns? && ReadStep(s, fuel).token == t && At(ReadStep(s, fuel).src, c, ts)
    ensures IsDefineName(c.defs, t) && c.defs[t.str].parms == [] && BodyOf(c.defs[t.str]).None? ==>
              ReadStep(s, fuel).Stops? && At(ReadStep(s, fuel).src, c, ts)
    ensures IsDefineName(c.defs, t) && BodyOf(c.defs[t.str]).Some? ==>
              ReadStep(s, fuel).Continues? && At(ReadStep(s, fuel).src, c, BodyOf(c.defs[t.str]).value + ts)
  {
    ReadsNext(s, c, t, ts);
    if IsDefineName(c.defs, t) && BodyOf(c.defs[t.str]).Some? {
      var s' := ReadSourceToken(s).src;
      assert Stream(Splice(s', BodyOf(c.defs[t.str])).src) == BodyOf(c.defs[t.str]).value + Stream(s');
    }
  }

  /** Raw reading of an expandable stream yields its expansion. */
  lemma {:induction false} ReadExpands(s: Source, c: Context, ts: seq<Token>, rest: seq<Token>, depth: nat, fuel: nat)
      returns (n: nat, s': Source)
    requires At(s, c, ts + rest) && c.skip == 0 && Expand(c.defs, ts, depth).Some?
    ensures Advance(s, n, fuel) == Some(Run(Expand(c.defs, ts, depth).value, s')) && At(s', c, rest)
    decreases depth, |ts|
  {
    hide ReadStep, BodyOf;
    if ts == [] {
      n, s' := 0, s;
      assert ts + rest == rest;
    } else {
      var (t, later) := (ts[0], ts[1..] + rest);
      assert ts + rest == [t] + later;
      StepOnToken(s, c, t, later, fuel);
      if !IsDefineName(c.defs, t) {
        n, s' := ReadExpands(ReadStep(s, fuel).src, c, ts[1..], rest, depth, fuel);
        n := n + 1;
      } else {
        var m, s1 := ReadExpands(ReadStep(s, fuel).src, c, BodyOf(c.defs[t.str]).value, later, depth - 1, fuel);
        n, s' := ReadExpands(s1, c, ts[1..], rest, depth, fuel);
        AdvanceMore(ReadStep(s, fuel).src, m, n, fuel);
        n := 1 + m + n;
      }
    }
  }

  /** Every define is object-like and nothing reachable is a directive. */
  ghost predicate ObjectLike(defs: map<string, Define>) {
    forall name <- defs :: defs[name].parms == [] &&
                           (BodyOf(defs[name]).Some? ==> forall t <- BodyOf(defs[name]).value :: !IsDirective(t))
  }

  /** Raw reading that gets to the end of the stream yields its expansion: the
      converse of ReadExpands. */
  lemma {:induction false} ExpandsIfRead(s: Source, c: Context, ts: seq<Token>, n: nat, fuel: nat)
    requires At(s, c, ts) && c.skip == 0 && ObjectLike(c.defs) && (forall t <- ts :: !IsDirective(t))
    requires Advance(s, n, fuel).Some? && Solo(Advance(s, n, fuel).value.src)
    requires Stream(Advance(s, n, fuel).value.src) == []
    ensures Expand(c.defs, ts, n).Some?
    decreases n
  {
    hide ReadStep, BodyOf;
    if ts != [] && n > 0 {
      var (t, later) := (ts[0], ts[1..]);
      assert ts == [t] + later;
      StepOnToken(s, c, t, later, fuel);
      if !IsDefineName(c.defs, t) {
        ExpandsIfRead(ReadStep(s, fuel).src, c, later, n - 1, fuel);
        ExpandDeeper(c.defs, later, n - 1, n);
      } else {
        var body := BodyOf(c.defs[t.str]).value;
        ExpandsIfRead(ReadStep(s, fuel).src, c, body + later, n - 1, fuel);
        ExpandConcat(c.defs, body, later, n - 1);
        ExpandDeeper(c.defs, later, n - 1, n);
      }
    }
  }
}
