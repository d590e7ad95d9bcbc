/** Adjacent strings: what PC_ReadToken returns is what raw reading yields, with
    every run of adjacent strings joined into one. */
module StringJoining {
  import opened Options
  import opened Tokens
  import opened Precompiler
  import opened Streams
  import opened Expansion

  /** Every string token has its two quotes. */
  ghost predicate Quoted(ts: seq<Token>) {
    forall t <- ts :: t.typ == TT_STRING ==> |t.str| >= 2
  }

  ghost function Join(ts: seq<Token>): (r: seq<Token>)
    requires Quoted(ts)
    ensures |r| <= |ts| && (ts != [] ==> r != [] && r[0].typ == ts[0].typ) && Quoted(r)
  {
    if ts == [] then []
    else
      var rest := Join(ts[1..]);
      if ts[0].typ == TT_STRING && rest != [] && rest[0].typ == TT_STRING then [JoinStrings(ts[0], rest[0])] + rest[1..]
      else [ts[0]] + rest
  }

  /** No joined string exceeds the length of a token. */
  ghost predicate Fits(ts: seq<Token>)
    requires Quoted(ts)
  {
    forall t <- Join(ts) :: t.typ == TT_STRING ==> |t.str| + 1 < MAX_TOKEN
  }

  lemma FitsLater(ts: seq<Token>)
    requires Quoted(ts) && Fits(ts) && ts != []
    ensures Quoted(ts[1..]) && Fits(ts[1..])
  {
    var (all, rest) := (Join(ts), Join(ts[1..]));
    forall u <- rest ensures u.typ == TT_STRING ==> |u.str| + 1 < MAX_TOKEN {
      if u != rest[0] {
        assert u in rest[1..];
        assert u in all;
      } else {
        assert all[0] in all;
        assert ts[0] in ts;
        assert all == [ts[0]] + rest ==> rest[0] in all;
      }
    }
  }

  // ------------------------------------------------------------ the result

  function Contents(t: Token): string
    requires |t.str| >= 2
  {
    t.str[1..|t.str| - 1]
  }

  ghost function AllContents(ts: seq<Token>): string
    requires Quoted(ts) && forall t <- ts :: t.typ == TT_STRING
  {
    if ts == [] then "" else assert ts[0] in ts; Contents(ts[0]) + AllContents(ts[1..])
  }

  lemma QuotedParts(ts: seq<Token>, after: seq<Token>)
    requires Quoted(ts + after)
    ensures Quoted(ts) && Quoted(after) && (ts != [] ==> Quoted(ts[1..] + after))
  {
    assert forall t <- ts :: t in ts + after;
    assert forall t <- after :: t in ts + after;
  }

  lemma JoinContents(t: Token, u: Token)
    requires |t.str| >= 2 && |u.str| >= 2
    ensures |JoinStrings(t, u).str| >= 2 && Contents(JoinStrings(t, u)) == Contents(t) + Contents(u)
  {
  }

  /** A run of strings becomes one string holding all their contents in order,
      and joining never reaches beyond the run. */
  lemma {:induction false} JoinRun(ts: seq<Token>, after: seq<Token>)
    requires Quoted(ts + after) && ts != [] && forall t <- ts :: t.typ == TT_STRING
    requires after == [] || after[0].typ != TT_STRING
    ensures Quoted(ts) && Quoted(after)
    ensures var r := Join(ts + after);
            && r != [] && r[0].typ == TT_STRING && |r[0].str| >= 2 && Contents(r[0]) == AllContents(ts)
                && r[1..] == Join(after)
    decreases ts
  {
    QuotedParts(ts, after);
    assert (ts + after)[0] == ts[0] && (ts + after)[1..] == ts[1..] + after;
    if |ts| == 1 {
      assert ts[1..] + after == after && AllContents(ts[1..]) == "";
    } else {
      JoinRun(ts[1..], after);
      JoinContents(ts[0], Join(ts[1..] + after)[0]);
    }
  }

  /** Reading never returns two strings in a row. */
  lemma {:induction false} JoinedApart(ts: seq<Token>)
    requires Quoted(ts)
    ensures forall i :: 0 <= i < |Join(ts)| - 1 ==> Join(ts)[i].typ != TT_STRING || Join(ts)[i + 1].typ != TT_STRING
    decreases ts
  {
    if ts != [] {
      JoinedApart(ts[1..]);
    }
  }

  // --------------------------------------------------- reading is joining

  /** Raw reading takes `n` rounds to yield `out`, and then finds nothing more. */
  ghost predicate Reads(s: Source, n: nat, fuel: nat, out: seq<Token>, end: Source) {
    && Valid(s) && Advance(s, n, fuel).Some? && Advance(s, n, fuel).value.out == out
    && ReadSourceToken(Advance(s, n, fuel).value.src) == NotRead(end)
  }

  lemma {:induction false} EndIsStable(s: Source)
    requires Valid(s) && ReadSourceToken(s).NotRead?
    ensures ReadSourceToken(ReadSourceToken(s).src) == ReadSourceToken(s)
    decreases |s.scripts|
  {
    var script := s.scripts[0];
    var s' := if script.clean then DropIndents(s) else s;
    if |s.scripts| == 1 {
      if script.clean { DropIndentsStable(s); }
    } else {
      EndIsStable(s'.(scripts := s.scripts[1..]));
    }
  }

  lemma {:induction false} DropIndentsStable(s: Source)
    requires Valid(s)
    ensures DropIndents(DropIndents(s)) == DropIndents(s)
    decreases |s.indents|
  {
    if TopIndent(s).Some? { DropIndentsStable(PopIndent(s)); }
  }

  /** A token for the caller, unread, is read again unchanged. */
  ghost predicate Rereadable(t: Token, s: Source) {
    && !StartsWith(t, '#') && !StartsWith(t, '$') && s.skip == 0
    && !(t.typ == TT_NAME && t.str in s.defs)
  }

  lemma ReturnsRereadable(s: Source, fuel: nat)
    requires Valid(s) && ReadStep(s, fuel).Returns?
    ensures Rereadable(ReadStep(s, fuel).token, ReadStep(s, fuel).src)
  {
  }

  lemma {:induction false} GotIsRereadable(s: Source, rounds: nat, fuel: nat)
    requires Valid(s) && ReadToken(s, rounds, fuel).Got?
    ensures var r := ReadToken(s, rounds, fuel); r.token.typ != TT_STRING ==> Rereadable(r.token, r.src)
    decreases rounds
  {
    hide ReadStep, Rereadable;
    if ReadStep(s, fuel).Continues? {
      GotIsRereadable(ReadStep(s, fuel).src, rounds - 1, fuel);
    } else {
      ReturnsRereadable(s, fuel);
    }
  }

  lemma RereadStep(t: Token, s: Source, fuel: nat)
    requires Valid(s) && Rereadable(t, s)
    ensures ReadStep(UnreadSourceToken(s, t), fuel) == Returns(t, s)
  {
    assert ([t] + s.tokens)[1..] == s.tokens;
  }

  /** The first round of a reading. */
  lemma ReadsFirstRound(s: Source, n: nat, fuel: nat, out: seq<Token>, end: Source)
    requires Reads(s, n, fuel, out, end)
    ensures Valid(s)
    ensures n == 0 ==> out == [] && ReadSourceToken(s) == NotRead(end)
    ensures n > 0 ==>
              match ReadStep(s, fuel)
              case Continues(s1) => Reads(s1, n - 1, fuel, out, end)
              case Returns(t, s1) => out != [] && out[0] == t && Reads(s1, n - 1, fuel, out[1..], end)
              case _ => false
  {
    hide ReadStep, ReadSourceToken;
  }

  lemma NothingJoined()
    ensures Quoted([]) && Join([]) == []
  {
  }

  lemma JoinPlain(ts: seq<Token>)
    requires Quoted(ts) && ts != [] && ts[0].typ != TT_STRING
    ensures Quoted(ts[1..]) && Join(ts) == [ts[0]] + Join(ts[1..])
  {
  }

  /** One call returns the first joined token and leaves a state from which raw
      reading yields the others. */
  lemma {:induction false} ReadTokenJoins(s: Source, n: nat, rounds: nat, fuel: nat, out: seq<Token>, end: Source)
      returns (n': nat, out': seq<Token>)
    requires Reads(s, n, fuel, out, end) && Quoted(out) && Fits(out) && n < rounds
    ensures out == [] ==> ReadToken(s, rounds, fuel) == NotRead(end)
    ensures out != [] ==>
              && ReadToken(s, rounds, fuel).Got? && ReadToken(s, rounds, fuel).token == Join(out)[0]
              && n' < n && Quoted(out') && Join(out') == Join(out)[1..] && Fits(out')
              && Reads(ReadToken(s, rounds, fuel).src, n', fuel, out', end)
    decreases n
  {
    hide ReadStep, ReadSourceToken, Fits, Reads, Join, Quoted;
    n', out' := 0, [];
    ReadsFirstRound(s, n, fuel, out, end);
    if n == 0 {
      StepAtEnd(s, fuel);
    } else {
      match ReadStep(s, fuel) {
        case Continues(s1) =>
          n', out' := ReadTokenJoins(s1, n - 1, rounds - 1, fuel, out, end);
        case Returns(t, s1) =>
          FitsLater(out);
          if t.typ != TT_STRING {
            JoinPlain(out);
            n', out' := n - 1, out[1..];
          } else {
            n', out' := ReadStringJoins(s, n, rounds, fuel, out, end);
          }
      }
    }
  }

  lemma StepAtEnd(s: Source, fuel: nat)
    requires Valid(s) && ReadSourceToken(s).NotRead?
    ensures ReadStep(s, fuel) == Stops(ReadSourceToken(s).src)
  {
  }

  lemma JoinSingle(t: Token)
    requires t.typ == TT_STRING ==> |t.str| >= 2
    ensures Quoted([]) && Quoted([t]) && Fits([]) && Join([t]) == [t] && Join([]) == []
  {
    assert [t][1..] == [];
  }

  lemma JoinFront(t: Token, u: Token, rest: seq<Token>, out': seq<Token>)
    requires Quoted([t] + rest) && Fits([t] + rest) && Quoted(rest) && rest != [] && Quoted(out')
    requires t.typ == u.typ == TT_STRING && u == Join(rest)[0] && Join(out') == Join(rest)[1..]
    ensures |t.str| >= 2 && |u.str| >= 2 && JoinFits(t, u)
    ensures Join([t] + rest)[0] == JoinStrings(t, u) && Join([t] + rest)[1..] == Join(out')
  {
    assert ([t] + rest)[0] == t && ([t] + rest)[1..] == rest;
    assert t in [t] + rest && u in Join(rest) && Join([t] + rest)[0] in Join([t] + rest);
  }

  lemma JoinBehind(t: Token, u: Token, rest: seq<Token>, out': seq<Token>)
    requires Quoted([t] + rest) && Quoted(rest) && Fits(rest) && rest != [] && Quoted(out')
    requires t.typ == TT_STRING != u.typ && u == Join(rest)[0] && Join(out') == Join(rest)[1..]
    ensures Join([t] + rest)[0] == t && Join([t] + rest)[1..] == Join(rest)
    ensures Quoted([u] + out') && Join([u] + out') == Join(rest) && Fits([u] + out')
  {
    assert ([t] + rest)[0] == t && ([t] + rest)[1..] == rest;
    assert ([u] + out')[0] == u && ([u] + out')[1..] == out';
  }

  lemma {:induction false} ReadStringJoins(s: Source, n: nat, rounds: nat, fuel: nat, out: seq<Token>, end: Source)
      returns (n': nat, out': seq<Token>)
    requires Reads(s, n, fuel, out, end) && Quoted(out) && Fits(out) && n < rounds
    requires n > 0 && ReadStep(s, fuel).Returns? && ReadStep(s, fuel).token.typ == TT_STRING
    ensures && ReadToken(s, rounds, fuel).Got? && ReadToken(s, rounds, fuel).token == Join(out)[0]
            && n' < n && Quoted(out') && Join(out') == Join(out)[1..] && Fits(out')
            && Reads(ReadToken(s, rounds, fuel).src, n', fuel, out', end)
    decreases n, 0
  {
    hide ReadStep, ReadSourceToken, Join, Fits;
    var Returns(t, s1) := ReadStep(s, fuel);
    var rest := out[1..];
    assert out == [t] + rest && Reads(s1, n - 1, fuel, rest, end);
    FitsLater(out);
    n', out' := ReadTokenJoins(s1, n - 1, rounds - 1, fuel, rest, end);
    if rest == [] {
      EndIsStable(Advance(s, n, fuel).value.src);
      assert out == [t];
      JoinSingle(t);
      n', out' := 0, [];
    } else {
      var Got(u, s2) := ReadToken(s1, rounds - 1, fuel);
      if u.typ == TT_STRING {
        JoinFront(t, u, rest, out');
      } else {
        GotIsRereadable(s1, rounds - 1, fuel);
        RereadStep(u, s2, fuel);
        JoinBehind(t, u, rest, out');
        n', out' := n' + 1, [u] + out';
      }
    }
  }

  /** Reading a source to its end with PC_ReadToken returns exactly the joined
      tokens of raw reading. */
  lemma {:induction false} ReadAllJoins(s: Source, n: nat, calls: nat, rounds: nat, fuel: nat, out: seq<Token>,
          end: Source)
    requires Reads(s, n, fuel, out, end) && Quoted(out) && Fits(out) && n < rounds && n < calls
    ensures ReadAll(s, calls, rounds, fuel) == Some((Join(out), end))
    decreases n
  {
    hide ReadToken, Fits, Reads, Join, Quoted;
    assert Valid(s) by { ReadsFirstRound(s, n, fuel, out, end); }
    var n', out' := ReadTokenJoins(s, n, rounds, fuel, out, end);
    if out == [] {
      NothingJoined();
    } else {
      ReadAllJoins(ReadToken(s, rounds, fuel).src, n', calls - 1, rounds, fuel, out', end);
      assert Join(out) == [Join(out)[0]] + Join(out)[1..];
    }
  }

  /** The name of an object-like define that cannot be used: its body is empty,
      or has a pair of tokens that ## cannot merge. */
  ghost predicate Unusable(c: Context, e: Token) {
    IsDefineName(c.defs, e) && c.defs[e.str].parms == [] && BodyOf(c.defs[e.str]).None?
  }

  lemma UnusableFails(s: Source, c: Context, e: Token, ts: seq<Token>, rounds: nat, fuel: nat)
    requires At(s, c, [e] + ts) && c.skip == 0 && Unusable(c, e) && rounds > 0
    ensures ReadToken(s, rounds, fuel).NotRead? && At(ReadToken(s, rounds, fuel).src, c, ts)
  {
    StepOnToken(s, c, e, ts, fuel);
  }

  /** But behind a string the failure is swallowed: the string is returned, the
      failing name is gone, and a second string is not joined with the first. */
  lemma FailureAfterStringIsSwallowed(s: Source, c: Context, a: Token, e: Token, ts: seq<Token>, rounds: nat, fuel: nat)
    requires At(s, c, [a] + ([e] + ts)) && c.skip == 0 && a.typ == TT_STRING && Unusable(c, e) && rounds >= 2
    ensures ReadToken(s, rounds, fuel).Got? && ReadToken(s, rounds, fuel).token == a
    ensures At(ReadToken(s, rounds, fuel).src, c, ts)
  {
    hide ReadStep, BodyOf;
    StepOnToken(s, c, a, [e] + ts, fuel);
    UnusableFails(ReadStep(s, fuel).src, c, e, ts, rounds - 1, fuel);
  }
}
