/** Raw reading: what PC_ReadToken's loop yields before strings are joined, and
    how it relates to the tokens still to come. */
module Streams {
  import opened Options
  import opened Tokens
  import opened Macros
  import opened Precompiler

  // ---------------------------------------------------------- raw reading

  datatype Run = Run(out: seq<Token>, src: Source)

  /** `n` rounds of PC_ReadToken's loop, none of which stops. */
  function Advance(s: Source, n: nat, fuel: nat): (r: Option<Run>)
    requires Valid(s)
    ensures r.Some? ==> Valid(r.value.src)
    decreases n
  {
    if n == 0 then Some(Run([], s))
    else
      match ReadStep(s, fuel)
      case Continues(s') => Advance(s', n - 1, fuel)
      case Returns(t, s') =>
        (match Advance(s', n - 1, fuel)
         case None => None
         case Some(run) => Some(Run([t] + run.out, run.src)))
      case _ => None
  }

  lemma {:induction false} AdvanceMore(s: Source, n: nat, m: nat, fuel: nat)
    requires Valid(s) && Advance(s, n, fuel).Some?
    ensures var run := Advance(s, n, fuel).value;
            Advance(s, n + m, fuel) == match Advance(run.src, m, fuel)
                                       case None => None
                                       case Some(more) => Some(Run(run.out + more.out, more.src))
    decreases n
  {
    hide ReadStep;
    if n == 0 {
      match Advance(s, m, fuel)
      case None =>
      case Some(more) => assert [] + more.out == more.out;
    } else {
      match ReadStep(s, fuel)
      case Continues(s') => AdvanceMore(s', n - 1, m, fuel);
      case Returns(t, s') =>
        AdvanceMore(s', n - 1, m, fuel);
        var run := Advance(s', n - 1, fuel).value;
        match Advance(run.src, m, fuel)
        case None =>
        case Some(more) => assert [t] + (run.out + more.out) == ([t] + run.out) + more.out;
    }
  }

  // ------------------------------------------------------ a single script

  ghost predicate Solo(s: Source) { |s.scripts| == 1 }

  /** Everything still to be read. */
  function Stream(s: Source): seq<Token>
    requires Solo(s)
  {
    s.tokens + s.scripts[0].toks
  }

  /** Everything but the tokens still to be read. */
  datatype Context = Context(
    script: Script,
    defs: map<string, Define>,
    indents: seq<Indent>,
    skip: int,
    loaded: nat,
    files: map<string, File>,
    includepath: string)

  function ContextOf(s: Source): Context
    requires Solo(s)
  {
    Context(s.scripts[0].(toks := []), s.defs, s.indents, s.skip, s.loaded, s.files, s.includepath)
  }

  /** `s` reads `ts` in context `c`. */
  ghost predicate At(s: Source, c: Context, ts: seq<Token>) {
    Solo(s) && ContextOf(s) == c && Stream(s) == ts
  }

  lemma ReadsNext(s: Source, c: Context, t: Token, ts: seq<Token>)
    requires At(s, c, [t] + ts)
    ensures ReadSourceToken(s).Got? && ReadSourceToken(s).token == t && At(ReadSourceToken(s).src, c, ts)
  {
    var s' := ReadSourceToken(s).src;
    assert Stream(s)[0] == t && Stream(s)[1..] == ts;
    if s.tokens == [] {
      assert Stream(s) == s.scripts[0].toks;
      assert s.scripts == [s.scripts[0]] && s'.scripts == [s.scripts[0].(toks := s.scripts[0].toks[1..])];
    } else {
      assert s.tokens[1..] + s.scripts[0].toks == Stream(s)[1..];
    }
  }

  lemma ReadsNothing(s: Source, c: Context)
    requires At(s, c, []) && c.indents == []
    ensures ReadSourceToken(s) == NotRead(s)
  {
    assert s.tokens == [] && s.scripts[0].toks == [];
  }

  lemma UnreadsNext(s: Source, c: Context, t: Token, ts: seq<Token>)
    requires At(s, c, ts)
    ensures At(UnreadSourceToken(s, t), c, [t] + ts)
  {
    assert ([t] + s.tokens) + s.scripts[0].toks == [t] + Stream(s);
  }

  // ------------------------------------------------------- logical lines

  /** A token that stands on the line being read. */
  predicate OnLine(t: Token) { t.linescrossed == 0 && t.str != "\\" }

  predicate IsBackslash(t: Token) { t.str == "\\" }

  /** The tokens of a line without the backslashes that continue it. */
  function Logical(raw: seq<Token>): seq<Token> {
    if raw == [] then [] else (if IsBackslash(raw[0]) then [] else [raw[0]]) + Logical(raw[1..])
  }

  /** What stands behind the first token of the line. */
  function Rest(raw: seq<Token>): seq<Token> {
    if raw == [] then [] else if IsBackslash(raw[0]) then Rest(raw[1..]) else raw[1..]
  }

  /** The tokens are on one line, where the first may cross `cross` line ends and one
      behind a backslash may cross one. */
  predicate OnLines(raw: seq<Token>, cross: nat) {
    raw == [] || (raw[0].linescrossed <= cross && OnLines(raw[1..], if IsBackslash(raw[0]) then 1 else 0))
  }

  /** How many line ends the token behind them may cross and still be on the line. */
  function Crossing(raw: seq<Token>, cross: nat): nat {
    if raw == [] then cross else Crossing(raw[1..], if IsBackslash(raw[0]) then 1 else 0)
  }

  /** The line ends where `ts` begins. */
  ghost predicate LineEnds(c: Context, ts: seq<Token>, cross: nat) {
    if ts == [] then c.indents == [] else ts[0].linescrossed > cross
  }

  lemma ReadsLineEnd(s: Source, c: Context, ts: seq<Token>, cross: nat)
    requires At(s, c, ts) && LineEnds(c, ts, cross)
    ensures ReadLineFrom(s, cross).NotRead? && At(ReadLineFrom(s, cross).src, c, ts)
  {
    if ts == [] {
      ReadsNothing(s, c);
    } else {
      assert ts == [ts[0]] + ts[1..];
      ReadsNext(s, c, ts[0], ts[1..]);
      UnreadsNext(ReadSourceToken(s).src, c, ts[0], ts[1..]);
    }
  }

  lemma ReadsLineToken(s: Source, c: Context, t: Token, ts: seq<Token>, cross: nat)
    requires At(s, c, [t] + ts) && t.linescrossed <= cross
    ensures ReadSourceToken(s).Got? && At(ReadSourceToken(s).src, c, ts) && Valid(ReadSourceToken(s).src)
    ensures ReadLineFrom(s, cross)
         == if IsBackslash(t) then ReadLineFrom(ReadSourceToken(s).src, 1) else Got(t, ReadSourceToken(s).src)
  {
    ReadsNext(s, c, t, ts);
  }

  /** Reading along a line gives its tokens one after the other, and then stops at
      its end. */
  lemma {:induction false} ReadsLogical(s: Source, c: Context, raw: seq<Token>, tail: seq<Token>, cross: nat)
    requires At(s, c, raw + tail) && OnLines(raw, cross)
    ensures Logical(raw) != [] ==>
              var r := ReadLineFrom(s, cross);
              && r.Got? && r.token == Logical(raw)[0] && At(r.src, c, Rest(raw) + tail) && |Rest(raw)| < |raw|
              && OnLines(Rest(raw), 0) && Logical(Rest(raw)) == Logical(raw)[1..]
                  && Crossing(Rest(raw), 0) == Crossing(raw, cross)
    ensures Logical(raw) == [] && LineEnds(c, tail, Crossing(raw, cross)) ==>
              ReadLineFrom(s, cross).NotRead? && At(ReadLineFrom(s, cross).src, c, tail)
    decreases raw
  {
    hide ReadSourceToken, ReadLineFrom, At, IsBackslash, LineEnds;
    AtIsValid(s, c, raw + tail);
    if raw == [] {
      assert raw + tail == tail;
      if LineEnds(c, tail, cross) { ReadsLineEnd(s, c, tail, cross); }
    } else {
      assert raw + tail == [raw[0]] + (raw[1..] + tail);
      ReadsLineToken(s, c, raw[0], raw[1..] + tail, cross);
      if IsBackslash(raw[0]) {
        ReadsLogical(ReadSourceToken(s).src, c, raw[1..], tail, 1);
      }
    }
  }

  lemma AtIsValid(s: Source, c: Context, ts: seq<Token>)
    requires At(s, c, ts)
    ensures Valid(s)
  {
  }

  lemma SameDefines(s: Source, c: Context, ts: seq<Token>)
    requires At(s, c, ts)
    ensures s.defs == c.defs && s.skip == c.skip
  {
  }

  /** Tokens on the line in front of others. */
  lemma {:induction false} OnLineInFront(ts: seq<Token>, raw: seq<Token>)
    requires (forall t <- ts :: OnLine(t)) && OnLines(raw, 0)
    ensures Logical(ts + raw) == ts + Logical(raw) && OnLines(ts + raw, 0) && Crossing(ts + raw, 0) == Crossing(raw, 0)
    decreases ts
  {
    if ts == [] {
      assert ts + raw == raw;
    } else {
      assert ts[0] in ts && (ts + raw)[0] == ts[0] && (ts + raw)[1..] == ts[1..] + raw;
      OnLineInFront(ts[1..], raw);
    }
  }

  lemma AdvanceNothing(s: Source, fuel: nat)
    requires Valid(s)
    ensures Advance(s, 0, fuel) == Some(Run([], s))
  {
  }

  /** A round that returns a token in front of others. */
  lemma AdvanceReturns(s: Source, n: nat, fuel: nat)
    requires Valid(s) && ReadStep(s, fuel).Returns? && Advance(ReadStep(s, fuel).src, n, fuel).Some?
    ensures var run := Advance(ReadStep(s, fuel).src, n, fuel).value;
            Advance(s, n + 1, fuel) == Some(Run([ReadStep(s, fuel).token] + run.out, run.src))
  {
    hide ReadStep;
  }

  /** A silent round in front of others. */
  lemma AdvanceSilently(s: Source, n: nat, fuel: nat)
    requires Valid(s) && ReadStep(s, fuel).Continues?
    ensures Advance(s, n + 1, fuel) == Advance(ReadStep(s, fuel).src, n, fuel)
  {
  }

  /** Tokens spliced in come before everything that was still to be read. */
  lemma SplicesFront(s: Source, c: Context, body: seq<Token>, ts: seq<Token>) returns (s': Source)
    requires At(s, c, ts)
    ensures s' == Splice(s, Some(body)).src && At(s', c, body + ts)
  {
    s' := Splice(s, Some(body)).src;
    assert Stream(s') == body + Stream(s);
  }
}
