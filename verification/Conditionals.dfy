/** Conditional compilation: the stack of indents and the skip counter carry out
    the recursive reading of nested regions that keeps only taken branches. */
module Conditionals {
  import opened Options
  import opened Tokens
  import opened Macros
  import opened Precompiler
  import opened Streams
  import opened Expansion
  import opened Calls
  import E = Evaluator

  // ------------------------------------------------------------- the text

  /** A # and the directive's name behind it. */
  datatype Line = Line(hash: Token, word: Token)

  /** What stands behind the directive's name, with the backslashes that continue
      the line: a name, or a condition up to the end of the line. */
  datatype Head = Ifdef(raw: seq<Token>) | Ifndef(raw: seq<Token>) | If(raw: seq<Token>)

  /** Ordinary tokens, with the calls among them, #define lines with all that is on
      them, #undef lines, and #ifdef/#ifndef/#if regions with an optional #else. */
  datatype Text =
    | Empty
    | Plain(ts: seq<Token>, rest: Text)
    | DefineLine(line: Line, raw: seq<Token>, rest: Text)
    | UndefLine(line: Line, raw: seq<Token>, rest: Text)
    | Region(line: Line, head: Head, thn: Text, elseLine: Option<Line>, els: Text, endLine: Line, rest: Text)

  function LineTokens(line: Line): seq<Token> { [line.hash, line.word] }

  /** The tokens of the first item. */
  function FirstTokens(text: Text): seq<Token>
    requires !text.Empty? && !text.Region?
  {
    match text
    case Plain(ts, _) => ts
    case DefineLine(line, raw, _) => LineTokens(line) + raw
    case UndefLine(line, raw, _) => LineTokens(line) + raw
  }

  function FlattenElse(text: Text): seq<Token>
    requires text.Region?
    decreases text, 0
  {
    if text.elseLine.Some? then LineTokens(text.elseLine.value) + Flatten(text.els) else []
  }

  function Flatten(text: Text): seq<Token>
    decreases text, 1
  {
    match text
    case Empty => []
    case Region(line, head, thn, _, _, endLine, rest) =>
      LineTokens(line) + head.raw + Flatten(thn) + FlattenElse(text) + LineTokens(endLine) + Flatten(rest)
    case _ => FirstTokens(text) + Flatten(text.rest)
  }

  predicate IsLine(line: Line, word: string) {
    && line.hash.typ == TT_PUNCTUATION && line.hash.str == "#"
    && line.word.typ == TT_NAME && line.word.str == word && line.word.linescrossed == 0
  }

  function HeadWord(head: Head): string {
    match head
    case Ifdef(_) => "ifdef"
    case Ifndef(_) => "ifndef"
    case If(_) => "if"
  }

  /** How many line ends the text's first token crosses; `after` is that number for
      what follows the text. */
  function StartCrosses(text: Text, after: nat): nat {
    match text
    case Empty => after
    case Plain(ts, rest) => if ts == [] then StartCrosses(rest, after) else ts[0].linescrossed
    case DefineLine(line, _, _) => line.hash.linescrossed
    case UndefLine(line, _, _) => line.hash.linescrossed
    case Region(line, _, _, _, _, _, _) => line.hash.linescrossed
  }

  /** The # that ends the branch behind the head. */
  function BranchEnd(text: Text): Token
    requires text.Region?
  {
    (if text.elseLine.Some? then text.elseLine.value else text.endLine).hash
  }

  /** What the items say of lines is so: a #define and an #if hold just the tokens
      of their line, which may go on behind backslashes. */
  ghost predicate Lined(text: Text, after: nat) {
    match text
    case Empty => true
    case Plain(_, rest) => Lined(rest, after)
    case DefineLine(line, raw, rest) =>
      IsLine(line, "define") && OnLines(raw, 0) && StartCrosses(rest, after) > Crossing(raw, 0) && Lined(rest, after)
    case UndefLine(line, raw, rest) => IsLine(line, "undef") && Lined(rest, after)
    case Region(line, head, thn, elseLine, els, endLine, rest) =>
      && IsLine(line, HeadWord(head)) && (elseLine.Some? ==> IsLine(elseLine.value, "else")) && IsLine(endLine, "endif")
      && (head.If? ==> OnLines(head.raw, 0) && StartCrosses(thn, BranchEnd(text).linescrossed) > Crossing(head.raw, 0))
      && Lined(thn, BranchEnd(text).linescrossed) && Lined(els, endLine.hash.linescrossed) && Lined(rest, after)
  }

  /** What follows a text: nothing, or a token that crosses at least that many lines. */
  ghost predicate Follows(c: Context, tail: seq<Token>, after: nat) {
    if tail == [] then c.indents == [] else tail[0].linescrossed >= after
  }

  // --------------------------------------------------- the recursive reading

  /** The name of a define that is expanded when it comes first on an #if line. */
  predicate ExpandsHere(t: Token, defined: bool) { t.typ == TT_NAME && !defined && t.str != "defined" }

  /** What comes of the tokens of an #if line: the tokens to evaluate, an error, or
      neither: the line does not end with them, or `fuel` is too little. */
  datatype Collection = Collected(ts: seq<Token>) | Wrong | Unclear

  /** A define that cannot be expanded, whatever stands behind the line. */
  ghost predicate CannotSpread(defs: map<string, Define>, d: Define, later: seq<Token>, fuel: nat) {
    if d.parms == [] then BodyOf(d).None?
    else if later != [] && later[0].str != "(" then true
    else
      match FindCall(defs, d, later, fuel)
      case None => false
      case Some((call, _)) => fuel >= SpreadNeed(defs, d, later, fuel) && Replacement(defs, d, call.given, fuel).None?
  }

  /** The tokens of an #if line with its defines and calls expanded, from `t` on; a
      name behind `defined` is left alone. */
  ghost function CollectFrom(defs: map<string, Define>, t: Token, later: seq<Token>, defined: bool,
          fuel: nat): Collection
    decreases fuel, 1
  {
    if ExpandsHere(t, defined) then
      if t.str !in defs || CannotSpread(defs, defs[t.str], later, fuel) then Wrong
      else
        match Spread(defs, defs[t.str], later, fuel)
        case None => Unclear
        case Some((body, left)) =>
          if fuel < SpreadNeed(defs, defs[t.str], later, fuel) || !SameLineEnd(body + left, later) then Unclear
          else Collect(defs, body + left, defined, fuel)
    else if t.typ == TT_STRING || t.typ == TT_LITERAL then Wrong
    else
      match Collect(defs, later, if t.typ == TT_NAME then !defined else defined, fuel)
      case Collected(rest) => Collected([t] + rest)
      case other => other
  }

  ghost function Collect(defs: map<string, Define>, raw: seq<Token>, defined: bool, fuel: nat): Collection
    decreases fuel, 0
  {
    if Logical(raw) == [] then Collected([])
    else if fuel == 0 then Unclear
    else CollectFrom(defs, Logical(raw)[0], Rest(raw), defined, fuel - 1)
  }

  /** The tokens are on a line that ends where the line of the others does. */
  predicate SameLineEnd(ts: seq<Token>, us: seq<Token>) { OnLines(ts, 0) && Crossing(ts, 0) == Crossing(us, 0) }

  /** The value of the condition of an #if; None if it cannot be evaluated. */
  ghost function ConditionValue(defs: map<string, Define>, raw: seq<Token>, fuel: nat): Option<int> {
    match Collect(defs, raw, false, fuel + 1)
    case Collected(ts) =>
      (match E.Evaluate(defs.Keys, ts, true)
       case Success(v, _) => Some(v)
       case _ => None)
    case _ => None
  }

  /** A name that the line goes on to, and nothing else. */
  predicate NameLine(raw: seq<Token>) {
    raw != [] && OnLines(raw, 0) && Logical(raw) == [raw[|raw| - 1]] && raw[|raw| - 1].typ == TT_NAME
  }

  function NameOf(raw: seq<Token>): string { if raw == [] then "" else raw[|raw| - 1].str }

  /** Whether the branch behind the head is taken. */
  ghost function Taken(defs: map<string, Define>, head: Head, fuel: nat): Option<bool> {
    match head
    case Ifdef(raw) => if NameLine(raw) then Some(NameOf(raw) in defs) else None
    case Ifndef(raw) => if NameLine(raw) then Some(NameOf(raw) !in defs) else None
    case If(raw) =>
      match ConditionValue(defs, raw, fuel)
      case None => None
      case Some(v) => Some(v != 0)
  }

  predicate NoDirectives(ts: seq<Token>) { forall t <- ts :: !IsDirective(t) }

  /** A skipped text may hold anything but a stray # or $ and an #if that cannot
      be evaluated: the conditions of skipped regions are evaluated too. */
  ghost predicate Skippable(defs: map<string, Define>, text: Text, fuel: nat) {
    match text
    case Empty => true
    case Plain(ts, rest) => NoDirectives(ts) && Skippable(defs, rest, fuel)
    case DefineLine(_, raw, rest) => NoDirectives(raw) && Skippable(defs, rest, fuel)
    case UndefLine(_, raw, rest) => NoDirectives(raw) && Skippable(defs, rest, fuel)
    case Region(_, head, thn, elseLine, els, _, rest) =>
      && Taken(defs, head, fuel).Some?
      && Skippable(defs, thn, fuel) && (elseLine.Some? ==> Skippable(defs, els, fuel)) && Skippable(defs, rest, fuel)
  }

  function Cleared(name: string, body: seq<Token>): seq<Token> {
    if body == [] then []
    else if body[0].typ == TT_NAME && body[0].str == name then Cleared(name, body[1..])
    else [ClearWhiteSpace(body[0])] + Cleared(name, body[1..])
  }

  predicate MisplacedMerge(body: seq<Token>) {
    body != [] && (body[0].str == "##" || body[|body| - 1].str == "##")
  }

  /** Names and commas up to a closing parenthesis, no name twice: the names, and
      what stands behind the parenthesis. */
  function Parameters(ts: seq<Token>, parms: seq<string>): Option<(seq<string>, seq<Token>)> {
    if |ts| < 2 || ts[0].typ != TT_NAME || ts[0].str in parms then None
    else if ts[1].str == ")" then Some((parms + [ts[0].str], ts[2..]))
    else if ts[1].str == "," then Parameters(ts[2..], parms + [ts[0].str])
    else None
  }

  /** The parameters of a define and its body. `raw` is what stands behind the opening
      parenthesis. Its first token is read with expansion and put back, and only if it is
      a closing parenthesis are there no parameters. */
  ghost function ParametersAndBody(defs: map<string, Define>, raw: seq<Token>,
          depth: nat): Option<(seq<string>, seq<Token>)>
  {
    match LookAhead(defs, raw, depth)
    case None => None
    case Some((t, left)) =>
      if t.str == ")" then if SameLineEnd(left, raw) then Some(([], Logical(left))) else None
      else if SameLineEnd([t] + left, raw) then Parameters(Logical([t] + left), [])
      else None
  }

  /** An opening parenthesis at once behind the name. */
  predicate HasParameters(ts: seq<Token>) { |ts| > 1 && !ts[1].whitespace && ts[1].str == "(" }

  /** The define that a #define line makes. None is an error, or a first parameter whose
      expansion goes beyond the line or beyond `fuel`. */
  ghost function ParsedDefine(defs: map<string, Define>, raw: seq<Token>, fuel: nat): Option<Define> {
    var ts := Logical(raw);
    if ts == [] || ts[0].typ != TT_NAME then None
    else if ts[0].str in defs && (defs[ts[0].str].fixed || ts[0].linescrossed > 0) then None
    else
      var d := Define(ts[0].str, [], [], false);
      var parsed: Option<(seq<string>, seq<Token>)> :=
        if !HasParameters(ts) then Some(([], ts[1..]))
        else if fuel <= LookNeed(defs[d.name := d], Rest(Rest(raw)), fuel) then None
        else ParametersAndBody(defs[d.name := d], Rest(Rest(raw)), fuel);
      match parsed
      case None => None
      case Some((parms, body)) =>
        if MisplacedMerge(Cleared(d.name, body)) then None else Some(d.(parms := parms, body := Cleared(d.name, body)))
  }

  /** What an item outside skipped text yields, and the defines it leaves. None is an
      error, or an expansion nested deeper than `depth` or longer than `fuel`. */
  ghost function FirstYields(defs: map<string, Define>, text: Text, depth: nat,
          fuel: nat): Option<(seq<Token>, map<string, Define>)>
    requires !text.Empty? && !text.Region?
  {
    match text
    case Plain(ts, _) =>
      if fuel < Need(defs, ts, 0, depth) then None
      else
        (match Expanded(defs, ts, false, depth)
         case None => None
         case Some(out) => Some((out, defs)))
    case DefineLine(_, raw, _) =>
      (match ParsedDefine(defs, raw, fuel)
       case None => None
       case Some(d) => Some(([], defs[d.name := d])))
    case UndefLine(_, raw, _) =>
      if !NameLine(raw) then None
      else Some(([], if NameOf(raw) in defs && !defs[NameOf(raw)].fixed then defs - {NameOf(raw)} else defs))
  }

  /** The tokens a text yields and the defines it leaves: ordinary tokens and calls
      are expanded, #define and #undef take effect, and of a region only the taken
      branch is read. */
  ghost function Preprocessed(defs: map<string, Define>, text: Text, depth: nat,
          fuel: nat): Option<(seq<Token>, map<string, Define>)>
    decreases text
  {
    match text
    case Empty => Some(([], defs))
    case Region(_, head, thn, elseLine, els, _, rest) =>
      (match Taken(defs, head, fuel)
       case None => None
       case Some(taken) =>
         var branch :=
           if taken then Preprocessed(defs, thn, depth, fuel)
           else if !Skippable(defs, thn, fuel) then None
           else if elseLine.Some? then Preprocessed(defs, els, depth, fuel)
           else Some(([], defs));
         match branch
         case None => None
         case Some((out, defs')) =>
           if taken && elseLine.Some? && !Skippable(defs', els, fuel) then None
           else
             match Preprocessed(defs', rest, depth, fuel)
             case None => None
             case Some((out', defs'')) => Some((out + out', defs'')))
    case _ =>
      match FirstYields(defs, text, depth, fuel)
      case None => None
      case Some((out, defs')) =>
        match Preprocessed(defs', text.rest, depth, fuel)
        case None => None
        case Some((out', defs'')) => Some((out + out', defs''))
  }

  // ------------------------------------------------------ directive lines

  lemma DirectiveStep(s: Source, c: Context, line: Line, word: string, ts: seq<Token>, fuel: nat)
      returns (s': Source)
    requires IsLine(line, word) && At(s, c, LineTokens(line) + ts)
    ensures At(s', c, ts) && ReadStep(s, fuel) == Precompiler.After(Directive(word, s', fuel))
  {
    assert LineTokens(line) + ts == [line.hash] + ([line.word] + ts);
    ReadsNext(s, c, line.hash, [line.word] + ts);
    ReadsNext(ReadSourceToken(s).src, c, line.word, ts);
    s' := ReadSourceToken(ReadSourceToken(s).src).src;
  }

  function Pushed(c: Context, typ: IndentType, skip: bool): Context {
    c.(indents := [Indent(typ, skip, c.script.id)] + c.indents, skip := c.skip + Bit(skip))
  }

  lemma {:induction false} LogicalParts(raw: seq<Token>)
    ensures forall t :: t in Logical(raw) <==> t in raw && !IsBackslash(t)
    decreases raw
  {
    if raw != [] {
      LogicalParts(raw[1..]);
      assert raw == [raw[0]] + raw[1..];
    }
  }

  lemma {:induction false} LastIsRest(raw: seq<Token>)
    requires raw != [] && Logical(raw) == [raw[|raw| - 1]]
    ensures Rest(raw) == []
    decreases raw
  {
    hide IsBackslash;
    var last := raw[|raw| - 1];
    LogicalFirst(raw);
    LogicalParts(raw);
    assert last in Logical(raw);
    if |raw| > 1 {
      assert last == raw[1..][|raw| - 2] && last in raw[1..];
      LogicalParts(raw[1..]);
      if IsBackslash(raw[0]) { LastIsRest(raw[1..]); }
    }
  }

  lemma LogicalFirst(raw: seq<Token>)
    requires raw != []
    ensures IsBackslash(raw[0]) ==> Logical(raw) == Logical(raw[1..]) && Rest(raw) == Rest(raw[1..])
    ensures !IsBackslash(raw[0]) ==> Logical(raw) == [raw[0]] + Logical(raw[1..]) && Rest(raw) == raw[1..]
  {
    hide IsBackslash;
  }

  /** The name behind a directive is read, wherever the line goes on. */
  lemma NameIsRead(s: Source, c: Context, raw: seq<Token>, ts: seq<Token>)
    requires At(s, c, raw + ts) && NameLine(raw)
    ensures ReadLine(s).Got? && ReadLine(s).token == raw[|raw| - 1] && At(ReadLine(s).src, c, ts)
  {
    hide ReadLineFrom, At;
    AtIsValid(s, c, raw + ts);
    ReadsLogical(s, c, raw, ts, 0);
    LastIsRest(raw);
    assert [] + ts == ts;
  }

  lemma IfdefStep(s: Source, c: Context, line: Line, head: Head, ts: seq<Token>, fuel: nat) returns (s': Source)
    requires !head.If? && IsLine(line, HeadWord(head)) && Taken(c.defs, head, fuel).Some?
    requires At(s, c, LineTokens(line) + (head.raw + ts))
    ensures ReadStep(s, fuel) == Continues(s')
    ensures At(s', Pushed(c, if head.Ifdef? then INDENT_IFDEF else INDENT_IFNDEF, !Taken(c.defs, head, fuel).value), ts)
  {
    hide ReadLine, ReadStep, OnLines, Logical;
    var s1 := DirectiveStep(s, c, line, HeadWord(head), head.raw + ts, fuel);
    NameIsRead(s1, c, head.raw, ts);
    s' := Directive(HeadWord(head), s1, fuel).src;
    assert Stream(s') == Stream(ReadLine(s1).src);
  }

  lemma ElseStep(s: Source, c: Context, line: Line, typ: IndentType, skip: bool, ts: seq<Token>, fuel: nat)
      returns (s': Source)
    requires typ != INDENT_ELSE && IsLine(line, "else") && At(s, Pushed(c, typ, skip), LineTokens(line) + ts)
    ensures ReadStep(s, fuel) == Continues(s') && At(s', Pushed(c, INDENT_ELSE, !skip), ts)
  {
    var s1 := DirectiveStep(s, Pushed(c, typ, skip), line, "else", ts, fuel);
    s' := DirectiveElse(s1).src;
    assert s1.indents[1..] == c.indents;
  }

  lemma EndifStep(s: Source, c: Context, line: Line, typ: IndentType, skip: bool, ts: seq<Token>, fuel: nat)
      returns (s': Source)
    requires IsLine(line, "endif") && At(s, Pushed(c, typ, skip), LineTokens(line) + ts)
    ensures ReadStep(s, fuel) == Continues(s') && At(s', c, ts)
  {
    var s1 := DirectiveStep(s, Pushed(c, typ, skip), line, "endif", ts, fuel);
    s' := DirectiveEndif(s1).src;
    assert s1.indents[1..] == c.indents;
  }

  // ---- #if

  lemma CollectUnfolds(s: Source, t: Token, acc: seq<Token>, defined: bool, fuel: nat)
    requires Valid(s)
    ensures ExpandsHere(t, defined) && t.str !in s.defs ==> CollectLine(s, t, acc, defined, true, fuel) == NoValue(s)
    ensures ExpandsHere(t, defined) && t.str in s.defs ==>
              var r := ExpandDefineIntoSource(s, s.defs[t.str], fuel);
              CollectLine(s, t, acc, defined, true, fuel)
                == if r.Ok? then CollectNext(r.src, acc, defined, true, fuel) else if r.Fail? then NoValue(r.src)
                    else EvaluationStuck
    ensures !ExpandsHere(t, defined) ==>
              CollectLine(s, t, acc, defined, true, fuel)
                == if t.typ == TT_STRING || t.typ == TT_LITERAL then NoValue(s)
                   else CollectNext(s, acc + [t], if t.typ == TT_NAME then !defined else defined, true, fuel)
  {
    hide ExpandDefineIntoSource, CollectNext;
  }

  /** A define that cannot be expanded fails. */
  lemma SpreadFails(s: Source, c: Context, d: Define, later: seq<Token>, tail: seq<Token>, fuel: nat)
    requires At(s, c, later + tail) && CannotSpread(c.defs, d, later, fuel)
    ensures Valid(s) && ExpandDefineIntoSource(s, d, fuel).Fail?
  {
    hide FindCall, Replacement, SpreadNeed, CallNeed, MergePass, Substitute, At;
    AtIsValid(s, c, later + tail);
    if d.parms != [] {
      if later[0].str != "(" {
        assert later + tail == [later[0]] + (later[1..] + tail);
        ReadsNext(s, c, later[0], later[1..] + tail);
      } else {
        var (call, left) := FindCall(c.defs, d, later, fuel).value;
        CallFails(s, c, d, later, call, left, tail, fuel);
      }
    }
  }

  lemma CallFails(s: Source, c: Context, d: Define, later: seq<Token>, call: CallText, left: seq<Token>,
          tail: seq<Token>, fuel: nat)
    requires At(s, c, later + tail) && d.parms != [] && FindCall(c.defs, d, later, fuel) == Some((call, left))
    requires fuel >= SpreadNeed(c.defs, d, later, fuel) && Replacement(c.defs, d, call.given, fuel).None?
    ensures Valid(s) && ExpandDefineIntoSource(s, d, fuel).Fail?
  {
    hide FindCall, Replacement, CallNeed, FitsCall, CallTokens, ExpandDefineIntoSource, At;
    CallAheadParts(c.defs, d, later, call, left, fuel);
    assert later + tail == CallTokens(call) + (left + tail);
    var s1 := CallExpands(s, c, d, call, left + tail, fuel);
    assert ExpandDefineIntoSource(s, d, fuel) == Splice(s1, None);
  }

  /** What collecting from a state comes to, when `collected` is the collection. */
  ghost predicate CollectsTo(r: Evaluation, c: Context, s': Source, acc: seq<Token>, collected: Collection,
          tail: seq<Token>)
  {
    match collected
    case Collected(ts) => At(s', c, tail) && r == EvaluateList(s', acc + ts, true)
    case Wrong => r.NoValue?
    case Unclear => true
  }

  /** Collecting an #if line expands it and stops at its end, or fails. */
  lemma {:induction false} CollectsLine(s: Source, c: Context, t: Token, raw: seq<Token>, tail: seq<Token>,
          acc: seq<Token>, defined: bool, fuel: nat)
      returns (s': Source)
    requires At(s, c, raw + tail) && OnLines(raw, 0) && LineEnds(c, tail, Crossing(raw, 0))
    ensures Valid(s)
    ensures CollectsTo(CollectLine(s, t, acc, defined, true, fuel), c, s', acc,
         CollectFrom(c.defs, t, raw, defined, fuel), tail)
    decreases fuel, 1
  {
    hide CollectLine, CollectNext, Collect, Spread, SpreadNeed, CannotSpread, Expands, LineEnds, At, OnLines, Crossing,
      ExpandsHere, EvaluateList, ExpandDefineIntoSource;
    AtIsValid(s, c, raw + tail);
    SameDefines(s, c, raw + tail);
    CollectUnfolds(s, t, acc, defined, fuel);
    s' := s;
    if ExpandsHere(t, defined) {
      if t.str in c.defs {
        s' := CollectsSpread(s, c, t, raw, tail, acc, defined, fuel);
      }
    } else if t.typ != TT_STRING && t.typ != TT_LITERAL {
      var defined' := if t.typ == TT_NAME then !defined else defined;
      s' := CollectsNext(s, c, raw, tail, acc + [t], defined', fuel);
      if Collect(c.defs, raw, defined', fuel).Collected? {
        var rest := Collect(c.defs, raw, defined', fuel).ts;
        assert (acc + [t]) + rest == acc + ([t] + rest);
      }
    }
  }

  lemma {:induction false} CollectsSpread(s: Source, c: Context, t: Token, raw: seq<Token>, tail: seq<Token>,
          acc: seq<Token>, defined: bool, fuel: nat)
      returns (s': Source)
    requires At(s, c, raw + tail) && OnLines(raw, 0) && LineEnds(c, tail, Crossing(raw, 0)) && ExpandsHere(t, defined)
    requires t.str in c.defs
    ensures Valid(s)
    ensures CollectsTo(CollectLine(s, t, acc, defined, true, fuel), c, s', acc,
         CollectFrom(c.defs, t, raw, defined, fuel), tail)
    decreases fuel, 0, 1
  {
    hide CollectLine, CollectNext, Collect, Spread, SpreadNeed, CannotSpread, Expands, LineEnds, At, OnLines, Crossing,
      ExpandsHere, EvaluateList, ExpandDefineIntoSource;
    var d := c.defs[t.str];
    AtIsValid(s, c, raw + tail);
    SameDefines(s, c, raw + tail);
    CollectUnfolds(s, t, acc, defined, fuel);
    s' := s;
    if CannotSpread(c.defs, d, raw, fuel) {
      SpreadFails(s, c, d, raw, tail, fuel);
    } else if Spread(c.defs, d, raw, fuel).Some? {
      var (body, left) := Spread(c.defs, d, raw, fuel).value;
      var s1 := SpreadStep(s, c, d, raw, tail, fuel);
      if fuel >= SpreadNeed(c.defs, d, raw, fuel) && SameLineEnd(body + left, raw) {
        ExpandsNow(s, d, s1, SpreadNeed(c.defs, d, raw, fuel), fuel);
        AtIsValid(s1, c, body + (left + tail));
        assert body + (left + tail) == (body + left) + tail;
        s' := CollectsNext(s1, c, body + left, tail, acc, defined, fuel);
      }
    }
  }

  lemma {:induction false} CollectsNext(s: Source, c: Context, raw: seq<Token>, tail: seq<Token>, acc: seq<Token>,
          defined: bool, fuel: nat)
      returns (s': Source)
    requires At(s, c, raw + tail) && OnLines(raw, 0) && LineEnds(c, tail, Crossing(raw, 0))
    ensures Valid(s)
    ensures CollectsTo(CollectNext(s, acc, defined, true, fuel), c, s', acc, Collect(c.defs, raw, defined, fuel), tail)
    decreases fuel, 0, 0
  {
    hide ReadLineFrom, CollectLine, CollectFrom, Logical, Rest, OnLines, Crossing, At, LineEnds, EvaluateList;
    AtIsValid(s, c, raw + tail);
    ReadsLogical(s, c, raw, tail, 0);
    s' := s;
    if Logical(raw) == [] {
      assert acc + [] == acc;
      s' := ReadLine(s).src;
    } else if fuel > 0 {
      s' := CollectsLine(ReadLine(s).src, c, Logical(raw)[0], Rest(raw), tail, acc, defined, fuel - 1);
    }
  }

  /** The directive behind the `if`. */
  lemma EvaluatesIf(s1: Source, c: Context, raw: seq<Token>, ts: seq<Token>, fuel: nat) returns (s2: Source)
    requires At(s1, c, raw + ts) && OnLines(raw, 0) && LineEnds(c, ts, Crossing(raw, 0))
    ensures Valid(s1)
    ensures Logical(raw) == [] ==> EvaluateLine(s1, true, fuel).NoValue?
    ensures Logical(raw) != [] ==>
         CollectsTo(EvaluateLine(s1, true, fuel), c, s2, [], Collect(c.defs, raw, false, fuel + 1), ts)
  {
    hide CollectLine, CollectFrom, Logical, Rest, OnLines, Crossing, ReadLineFrom, LineEnds, At, EvaluateList;
    AtIsValid(s1, c, raw + ts);
    ReadsLogical(s1, c, raw, ts, 0);
    s2 := s1;
    if Logical(raw) != [] {
      s2 := CollectsLine(ReadLine(s1).src, c, Logical(raw)[0], Rest(raw), ts, [], false, fuel);
    }
  }

  /** A condition without tokens has no value. */
  lemma NothingToEvaluate(defs: map<string, Define>, raw: seq<Token>, fuel: nat)
    requires Logical(raw) == []
    ensures ConditionValue(defs, raw, fuel) == None
  {
  }

  lemma IfStep(s: Source, c: Context, line: Line, head: Head, ts: seq<Token>, fuel: nat) returns (s': Source)
    requires head.If? && IsLine(line, "if") && OnLines(head.raw, 0) && LineEnds(c, ts, Crossing(head.raw, 0))
    requires At(s, c, LineTokens(line) + (head.raw + ts)) && Taken(c.defs, head, fuel).Some?
    ensures ReadStep(s, fuel) == Continues(s') && At(s', Pushed(c, INDENT_IF, !Taken(c.defs, head, fuel).value), ts)
  {
    hide IsLine, ReadStep, EvaluateLine, Collect, LineEnds, Logical, OnLines, Crossing;
    if Logical(head.raw) == [] { NothingToEvaluate(c.defs, head.raw, fuel); }
    var s1 := DirectiveStep(s, c, line, "if", head.raw + ts, fuel);
    var s2 := EvaluatesIf(s1, c, head.raw, ts, fuel);
    var collected := Collect(c.defs, head.raw, false, fuel + 1).ts;
    assert [] + collected == collected;
    s' := Directive("if", s1, fuel).src;
    assert Stream(s') == Stream(s2);
  }

  /** Reading gets past an #if line exactly when its condition evaluates, also where
      the line is skipped. */
  lemma IfGoesOn(s: Source, c: Context, line: Line, head: Head, ts: seq<Token>, fuel: nat)
    requires head.If? && IsLine(line, "if") && OnLines(head.raw, 0) && LineEnds(c, ts, Crossing(head.raw, 0))
    requires At(s, c, LineTokens(line) + (head.raw + ts)) && !Collect(c.defs, head.raw, false, fuel + 1).Unclear?
    ensures Valid(s) && (ReadStep(s, fuel).Continues? <==> Taken(c.defs, head, fuel).Some?)
  {
    hide IsLine, ReadStep, EvaluateLine, Collect, LineEnds, Logical, OnLines, Crossing, At;
    AtIsValid(s, c, LineTokens(line) + (head.raw + ts));
    if Taken(c.defs, head, fuel).Some? {
      var s' := IfStep(s, c, line, head, ts, fuel);
    } else {
      var s1 := DirectiveStep(s, c, line, "if", head.raw + ts, fuel);
      SameDefines(s1, c, head.raw + ts);
      var s2 := EvaluatesIf(s1, c, head.raw, ts, fuel);
      if Logical(head.raw) != [] { NoValueOf(c, s2, head.raw, ts, EvaluateLine(s1, true, fuel), fuel); }
    }
  }

  lemma NoValueOf(c: Context, s2: Source, raw: seq<Token>, ts: seq<Token>, r: Evaluation, fuel: nat)
    requires CollectsTo(r, c, s2, [], Collect(c.defs, raw, false, fuel + 1), ts)
    requires !Collect(c.defs, raw, false, fuel + 1).Unclear?
    requires ConditionValue(c.defs, raw, fuel).None?
    ensures !r.Value?
  {
    hide Collect, E.Evaluate;
    if Collect(c.defs, raw, false, fuel + 1).Collected? {
      var collected := Collect(c.defs, raw, false, fuel + 1).ts;
      assert [] + collected == collected;
      SameDefines(s2, c, ts);
    }
  }

  /** So a name that is not defined makes reading fail, in skipped text too. */
  lemma UndefinedNameFails(s: Source, c: Context, line: Line, raw: seq<Token>, ts: seq<Token>, fuel: nat)
    requires IsLine(line, "if") && OnLines(raw, 0) && LineEnds(c, ts, Crossing(raw, 0))
    requires At(s, c, LineTokens(line) + (raw + ts))
    requires Logical(raw) != [] && ExpandsHere(Logical(raw)[0], false) && Logical(raw)[0].str !in c.defs
    ensures Valid(s) && ReadStep(s, fuel).Stops?
  {
    hide IsLine, ReadStep, EvaluateLine, LineEnds, Logical, OnLines, Crossing, At;
    AtIsValid(s, c, LineTokens(line) + (raw + ts));
    var s1 := DirectiveStep(s, c, line, "if", raw + ts, fuel);
    var s2 := EvaluatesIf(s1, c, raw, ts, fuel);
  }

  lemma HeadStep(s: Source, c: Context, line: Line, head: Head, ts: seq<Token>, fuel: nat)
      returns (typ: IndentType, s': Source)
    requires IsLine(line, HeadWord(head))
    requires (head.If? ==> OnLines(head.raw, 0) && LineEnds(c, ts, Crossing(head.raw, 0)))
    requires At(s, c, LineTokens(line) + (head.raw + ts)) && Taken(c.defs, head, fuel).Some?
    ensures typ != INDENT_ELSE && ReadStep(s, fuel) == Continues(s')
    ensures At(s', Pushed(c, typ, !Taken(c.defs, head, fuel).value), ts)
  {
    hide ReadStep, IsLine, Taken, At;
    AtIsValid(s, c, LineTokens(line) + (head.raw + ts));
    if head.If? {
      typ := INDENT_IF;
      s' := IfStep(s, c, line, head, ts, fuel);
    } else {
      typ := if head.Ifdef? then INDENT_IFDEF else INDENT_IFNDEF;
      s' := IfdefStep(s, c, line, head, ts, fuel);
    }
  }

  // ---- #define and #undef

  lemma BodyEnds(s: Source, d: Define, t: Token)
    requires Valid(s) && ReadLine(s).NotRead?
    ensures var d1 := if t.typ == TT_NAME && t.str == d.name then d else d.(body := d.body + [ClearWhiteSpace(t)]);
            ReadBody(s, d, t) == if MisplacedMerge(d1.body) then Fail(SetDefine(ReadLine(s).src, d1))
                else Ok(SetDefine(ReadLine(s).src, d1))
  {
    hide ReadLine;
  }

  lemma {:induction false} ReadsBody(s: Source, c: Context, d: Define, t: Token, raw: seq<Token>, tail: seq<Token>)
    requires At(s, c, raw + tail) && OnLines(raw, 0) && LineEnds(c, tail, Crossing(raw, 0))
    ensures var d' := d.(body := d.body + Cleared(d.name, [t] + Logical(raw)));
            && Valid(s) && ReadBody(s, d, t).Ok? == !MisplacedMerge(d'.body)
            && At(ReadBody(s, d, t).src, c.(defs := c.defs[d.name := d']), tail)
    decreases |raw|
  {
    hide ReadLineFrom, At, LineEnds, OnLines, Crossing, Logical, MisplacedMerge;
    var ts := Logical(raw);
    var d1 := if t.typ == TT_NAME && t.str == d.name then d else d.(body := d.body + [ClearWhiteSpace(t)]);
    AtIsValid(s, c, raw + tail);
    ReadsLogical(s, c, raw, tail, 0);
    assert ([t] + ts)[0] == t && ([t] + ts)[1..] == ts;
    assert d1.body + Cleared(d.name, ts) == d.body + Cleared(d.name, [t] + ts);
    if ts == [] {
      assert d1.body + [] == d1.body;
      BodyEnds(s, d, t);
      SetsDefine(ReadLine(s).src, c, d1, tail);
    } else {
      assert ts == [ts[0]] + ts[1..];
      ReadsBody(ReadLine(s).src, c, d1, ts[0], Rest(raw), tail);
    }
  }

  lemma SetsDefine(s: Source, c: Context, d: Define, ts: seq<Token>)
    requires At(s, c, ts)
    ensures At(SetDefine(s, d), c.(defs := c.defs[d.name := d]), ts)
  {
    assert Stream(SetDefine(s, d)) == Stream(s);
  }

  lemma {:induction false} ReadsParameters(s: Source, c: Context, d: Define, raw: seq<Token>, tail: seq<Token>)
      returns (later: seq<Token>)
    requires At(s, c, raw + tail) && OnLines(raw, 0) && Parameters(Logical(raw), d.parms).Some?
    ensures OnLines(later, 0) && Crossing(later, 0) == Crossing(raw, 0)
    ensures var (parms, behind) := Parameters(Logical(raw), d.parms).value;
            && Logical(later) == behind && Valid(s)
            && ReadParmNames(s, d).0 == Some(d.(parms := parms)) && At(ReadParmNames(s, d).1, c, later + tail)
    decreases |raw|
  {
    hide ReadLineFrom, At, OnLines, Crossing, Logical;
    var ts := Logical(raw);
    AtIsValid(s, c, raw + tail);
    ReadsLogical(s, c, raw, tail, 0);
    var s1 := ReadLine(s).src;
    AtIsValid(s1, c, Rest(raw) + tail);
    ReadsLogical(s1, c, Rest(raw), tail, 0);
    later := Rest(Rest(raw));
    assert ts[1..][1..] == ts[2..] && ts[1..][0] == ts[1];
    if ts[1].str != ")" {
      AtIsValid(ReadLine(s1).src, c, later + tail);
      later := ReadsParameters(ReadLine(s1).src, c, d.(parms := d.parms + [ts[0].str]), later, tail);
    }
  }

  /** Looking ahead for a closing parenthesis. */
  lemma ChecksToken(s: Source, c: Context, ts: seq<Token>, rest: seq<Token>, depth: nat, fuel: nat)
    requires At(s, c, ts + rest) && c.skip == 0 && LookAhead(c.defs, ts, depth).Some?
    requires fuel > LookNeed(c.defs, ts, depth)
    ensures var (t, left) := LookAhead(c.defs, ts, depth).value;
            && Valid(s) && CheckTokenString(s, ")", fuel).0 == Some(t.str == ")")
            && At(CheckTokenString(s, ")", fuel).1, c, (if t.str == ")" then left else [t] + left) + rest)
  {
    hide ReadToken, LookAhead, LookNeed, At;
    var (t, left) := LookAhead(c.defs, ts, depth).value;
    var s' := LooksAhead(s, c, ts, rest, depth, fuel - 1, fuel - 1);
    UnreadsNext(s', c, t, left + rest);
    assert [t] + (left + rest) == ([t] + left) + rest;
  }

  /** The rest of a #define line behind the parameters. */
  function Finished(s: Source, d: Define): Done
    requires Valid(s)
  {
    match ReadLine(s)
    case NotRead(s') => Ok(SetDefine(s', d))
    case Got(t, s') => ReadBody(SetDefine(s', d), d, t)
  }

  lemma FinishesDefine(s: Source, c: Context, d: Define, raw: seq<Token>, tail: seq<Token>)
    requires At(s, c, raw + tail) && OnLines(raw, 0) && LineEnds(c, tail, Crossing(raw, 0)) && d.body == []
    ensures var d' := d.(body := Cleared(d.name, Logical(raw)));
            Valid(s)
                && (!MisplacedMerge(d'.body) ==>
                Finished(s, d).Ok? && At(Finished(s, d).src, c.(defs := c.defs[d.name := d']), tail))
  {
    hide ReadLineFrom, At, ReadBody, MisplacedMerge, OnLines, Crossing;
    var (ts, c') := (Logical(raw), c.(defs := c.defs[d.name := d]));
    AtIsValid(s, c, raw + tail);
    ReadsLogical(s, c, raw, tail, 0);
    if ts == [] {
      SetsDefine(ReadLine(s).src, c, d, tail);
      assert d.(body := Cleared(d.name, ts)) == d;
    } else {
      assert ts == [ts[0]] + ts[1..];
      SetsDefine(ReadLine(s).src, c, d, Rest(raw) + tail);
      SameEnds(c, c', tail, Crossing(raw, 0));
      ReadsBody(SetDefine(ReadLine(s).src, d), c', d, ts[0], Rest(raw), tail);
      var d' := d.(body := [] + Cleared(d.name, ts));
      assert [] + Cleared(d.name, ts) == Cleared(d.name, ts) && c'.defs[d.name := d'] == c.defs[d.name := d'];
    }
  }

  lemma SameEnds(c: Context, c': Context, tail: seq<Token>, cross: nat)
    requires LineEnds(c, tail, cross) && c'.indents == c.indents
    ensures LineEnds(c', tail, cross)
  {
  }

  /** A line behind the name, when the define is in the table without a body. */
  lemma TailDefines(s: Source, c: Context, d: Define, raw: seq<Token>, tail: seq<Token>, fuel: nat)
    requires At(s, c, raw + tail) && OnLines(raw, 0) && LineEnds(c, tail, Crossing(raw, 0)) && c.skip == 0
    requires d == Define(d.name, [], [], false) && d.name in c.defs && c.defs[d.name] == d
    requires Logical(raw) == [] || Logical(raw)[0].whitespace || Logical(raw)[0].str != "("
    requires !MisplacedMerge(Cleared(d.name, Logical(raw)))
    ensures Valid(s) && DefineTail(s, d, fuel).Ok?
    ensures At(DefineTail(s, d, fuel).src, c.(defs := c.defs[d.name := d.(body := Cleared(d.name, Logical(raw)))]),
         tail)
  {
    hide ReadLineFrom, At, ReadBody, MisplacedMerge, OnLines, Crossing;
    var ts := Logical(raw);
    AtIsValid(s, c, raw + tail);
    ReadsLogical(s, c, raw, tail, 0);
    if ts == [] {
      assert d.(body := Cleared(d.name, ts)) == d && c.defs[d.name := d] == c.defs;
    } else {
      assert ts == [ts[0]] + ts[1..];
      ReadsBody(ReadLine(s).src, c, d, ts[0], Rest(raw), tail);
      assert [] + Cleared(d.name, ts) == Cleared(d.name, ts);
    }
  }

  lemma TailDefinesWithParameters(s: Source, c: Context, d: Define, raw: seq<Token>, tail: seq<Token>, fuel: nat)
    requires At(s, c, raw + tail) && OnLines(raw, 0) && LineEnds(c, tail, Crossing(raw, 0)) && c.skip == 0
    requires d == Define(d.name, [], [], false) && d.name in c.defs && c.defs[d.name] == d
    requires Logical(raw) != [] && !Logical(raw)[0].whitespace && Logical(raw)[0].str == "("
    requires fuel > LookNeed(c.defs, Rest(raw), fuel) && ParametersAndBody(c.defs, Rest(raw), fuel).Some?
    requires !MisplacedMerge(Cleared(d.name, ParametersAndBody(c.defs, Rest(raw), fuel).value.1))
    ensures Valid(s) && DefineTail(s, d, fuel).Ok?
    ensures var (parms, body) := ParametersAndBody(c.defs, Rest(raw), fuel).value;
            At(DefineTail(s, d, fuel).src,
                c.(defs := c.defs[d.name := d.(parms := parms, body := Cleared(d.name, body))]), tail)
  {
    hide ReadLineFrom, At, ReadBody, MisplacedMerge, LookAhead, LookNeed, CheckTokenString, ReadParmNames, LineEnds,
      OnLines, Crossing;
    AtIsValid(s, c, raw + tail);
    ReadsLogical(s, c, raw, tail, 0);
    var (s1, raw1) := (ReadLine(s).src, Rest(raw));
    var (t, left) := LookAhead(c.defs, raw1, fuel).value;
    var (parms, body) := ParametersAndBody(c.defs, raw1, fuel).value;
    var d' := d.(parms := parms);
    AtIsValid(s1, c, raw1 + tail);
    ChecksToken(s1, c, raw1, tail, fuel, fuel);
    var s2 := CheckTokenString(s1, ")", fuel).1;
    if t.str == ")" {
      AtIsValid(s2, c, left + tail);
      FinishesDefine(s2, c, d', left, tail);
      assert DefineTail(s, d, fuel) == Finished(s2, d');
    } else {
      AtIsValid(s2, c, ([t] + left) + tail);
      var later := ReadsParameters(s2, c, d, [t] + left, tail);
      var s3 := ReadParmNames(s2, d).1;
      AtIsValid(s3, c, later + tail);
      FinishesDefine(s3, c, d', later, tail);
      assert DefineTail(s, d, fuel) == Finished(s3, d');
    }
  }

  /** A define of that name goes before the name is read again. */
  lemma ForgetsDefine(s: Source, c: Context, t: Token, later: seq<Token>) returns (s': Source)
    requires At(s, c, later) && c.skip == 0 && t.typ == TT_NAME && t.linescrossed == 0 && !IsBackslash(t)
    requires t.str in c.defs && !c.defs[t.str].fixed
    ensures Valid(s) && DirectiveUndef(UnreadSourceToken(s, t)) == Ok(s') && At(s', c.(defs := c.defs - {t.str}), later)
  {
    hide ReadLineFrom;
    var s2 := UnreadSourceToken(s, t);
    UnreadsNext(s, c, t, later);
    ReadsLineToken(s2, c, t, later, 0);
    s' := Undefine(ReadLine(s2).src, t.str);
    assert Stream(s') == later;
  }

  /** #define up to the rest of its line. */
  lemma DefineUnfolds(s: Source, fuel: nat)
    requires Valid(s) && s.skip == 0 && ReadLine(s).Got? && ReadLine(s).token.typ == TT_NAME
    ensures var (t, s1) := (ReadLine(s).token, ReadLine(s).src);
            var d := Define(t.str, [], [], false);
            && (t.str !in s1.defs ==> DirectiveDefine(s, fuel) == DefineTail(SetDefine(s1, d), d, fuel))
            && (t.str in s1.defs && !s1.defs[t.str].fixed && DirectiveUndef(UnreadSourceToken(s1, t)).Ok? ==>
                  DirectiveDefine(s, fuel)
                      == DefineTail(SetDefine(DirectiveUndef(UnreadSourceToken(s1, t)).src, d), d, fuel))
  {
    hide ReadLine, DefineTail, DirectiveUndef, UnreadSourceToken;
  }

  /** A name that is defined already cannot be defined again behind a backslash and a
      line end: it is unread for #undef, which does not cross the line end. */
  lemma RedefinitionFails(s: Source, c: Context, raw: seq<Token>, ts: seq<Token>, fuel: nat)
    requires At(s, c, raw + ts) && OnLines(raw, 0) && c.skip == 0 && Logical(raw) != []
    requires var t := Logical(raw)[0]; t.typ == TT_NAME && t.str in c.defs && t.linescrossed > 0
    ensures Valid(s) && DirectiveDefine(s, fuel).Fail?
  {
    hide ReadLineFrom, Logical, Rest, OnLines, Crossing, DefineTail;
    AtIsValid(s, c, raw + ts);
    ReadsLogical(s, c, raw, ts, 0);
    var (t, s1, later) := (Logical(raw)[0], ReadLine(s).src, Rest(raw) + ts);
    UnreadsNext(s1, c, t, later);
    ReadsLineEnd(UnreadSourceToken(s1, t), c, [t] + later, 0);
  }

  lemma SetsEmpty(s: Source, c: Context, d: Define, later: seq<Token>)
    requires At(s, c, later)
    ensures At(SetDefine(s, d), c.(defs := c.defs[d.name := d]), later)
  {
    assert Stream(SetDefine(s, d)) == later;
  }

  lemma ParsedName(defs: map<string, Define>, raw: seq<Token>, fuel: nat)
    requires ParsedDefine(defs, raw, fuel).Some?
    ensures Logical(raw) != []
    ensures var t := Logical(raw)[0];
            t.typ == TT_NAME && !IsBackslash(t) && (t.str in defs ==> !defs[t.str].fixed && t.linescrossed == 0)
  {
    hide Logical, ParametersAndBody, MisplacedMerge, IsBackslash;
    LogicalParts(raw);
    assert Logical(raw)[0] in Logical(raw);
  }

  /** What #define does before it looks behind the name. */
  lemma DefineStarts(s: Source, c: Context, raw: seq<Token>, ts: seq<Token>, fuel: nat) returns (s': Source)
    requires At(s, c, raw + ts) && OnLines(raw, 0) && c.skip == 0 && ParsedDefine(c.defs, raw, fuel).Some?
    ensures var name := Logical(raw)[0].str;
            var d := Define(name, [], [], false);
            && At(s', c.(defs := c.defs[name := d]), Rest(raw) + ts)
            && Valid(s) && DirectiveDefine(s, fuel) == DefineTail(s', d, fuel)
  {
    hide ReadLineFrom, DefineTail, DirectiveDefine, DirectiveUndef, ParsedDefine, Logical, Rest, Crossing, OnLines,
      IsBackslash, At;
    ParsedName(c.defs, raw, fuel);
    AtIsValid(s, c, raw + ts);
    SameDefines(s, c, raw + ts);
    ReadsLogical(s, c, raw, ts, 0);
    var (t, s1, later) := (Logical(raw)[0], ReadLine(s).src, Rest(raw) + ts);
    var d := Define(t.str, [], [], false);
    SameDefines(s1, c, later);
    DefineUnfolds(s, fuel);
    if t.str in c.defs {
      var s2 := ForgetsDefine(s1, c, t, later);
      s' := SetDefine(s2, d);
      SetsEmpty(s2, c.(defs := c.defs - {t.str}), d, later);
      assert (c.defs - {t.str})[t.str := d] == c.defs[t.str := d];
    } else {
      s' := SetDefine(s1, d);
      SetsEmpty(s1, c, d, later);
    }
  }

  lemma DefinesLine(s: Source, c: Context, raw: seq<Token>, ts: seq<Token>, fuel: nat) returns (s': Source)
    requires At(s, c, raw + ts) && OnLines(raw, 0) && LineEnds(c, ts, Crossing(raw, 0)) && c.skip == 0
    requires ParsedDefine(c.defs, raw, fuel).Some?
    ensures Valid(s) && DirectiveDefine(s, fuel) == Ok(s')
    ensures var d := ParsedDefine(c.defs, raw, fuel).value; At(s', c.(defs := c.defs[d.name := d]), ts)
  {
    hide DirectiveDefine, DefineTail, ParametersAndBody, LookNeed, MisplacedMerge, At, LineEnds, OnLines;
    AtIsValid(s, c, raw + ts);
    var s2 := DefineStarts(s, c, raw, ts, fuel);
    ReadsLogical(s, c, raw, ts, 0);
    var d0 := Define(Logical(raw)[0].str, [], [], false);
    var c' := c.(defs := c.defs[d0.name := d0]);
    SameEnds(c, c', ts, Crossing(raw, 0));
    AtIsValid(s2, c', Rest(raw) + ts);
    var d := ParsedDefine(c.defs, raw, fuel).value;
    assert c'.defs[d.name := d] == c.defs[d.name := d];
    if HasParameters(Logical(raw)) {
      TailDefinesWithParameters(s2, c', d0, Rest(raw), ts, fuel);
    } else {
      TailDefines(s2, c', d0, Rest(raw), ts, fuel);
    }
    s' := DefineTail(s2, d0, fuel).src;
  }

  lemma DefineStep(s: Source, c: Context, line: Line, raw: seq<Token>, ts: seq<Token>, fuel: nat) returns (s': Source)
    requires IsLine(line, "define") && At(s, c, LineTokens(line) + (raw + ts)) && c.skip == 0
    requires OnLines(raw, 0) && LineEnds(c, ts, Crossing(raw, 0))
    requires ParsedDefine(c.defs, raw, fuel).Some?
    ensures Valid(s) && ReadStep(s, fuel) == Continues(s')
    ensures var d := ParsedDefine(c.defs, raw, fuel).value; At(s', c.(defs := c.defs[d.name := d]), ts)
  {
    hide DirectiveDefine, ReadStep, IsLine, ParsedDefine, LineEnds, OnLines, Crossing, Logical;
    AtIsValid(s, c, LineTokens(line) + (raw + ts));
    var s1 := DirectiveStep(s, c, line, "define", raw + ts, fuel);
    AtIsValid(s1, c, raw + ts);
    s' := DefinesLine(s1, c, raw, ts, fuel);
  }

  lemma {:induction false} ParametersGrow(ts: seq<Token>, parms: seq<string>)
    requires Parameters(ts, parms).Some?
    ensures ts != [] && parms + [ts[0].str] <= Parameters(ts, parms).value.0 && ts[0].typ == TT_NAME
    decreases |ts|
  {
    if ts[1].str != ")" { ParametersGrow(ts[2..], parms + [ts[0].str]); }
  }

  /** The name behind the opening parenthesis becomes the first parameter exactly when
      it is not the name of a define. */
  lemma FirstParameterKept(defs: map<string, Define>, raw: seq<Token>, depth: nat)
    requires raw != [] && raw[0].typ == TT_NAME && raw[0].str != ")" && !IsBackslash(raw[0])
    requires OnLines(raw, 0) && Parameters(Logical(raw), []).Some?
    requires LookAhead(defs, raw, depth).Some? ==> !IsBackslash(LookAhead(defs, raw, depth).value.0)
    ensures var r := ParametersAndBody(defs, raw, depth);
            (r.Some? && r.value.0 != [] && r.value.0[0] == raw[0].str) <==> raw[0].str !in defs
  {
    hide IsBackslash, Parameters, Spread, OnLines, Crossing;
    LogicalFirst(raw);
    ParametersGrow(Logical(raw), []);
    if raw[0].str !in defs {
      assert LookAhead(defs, raw, depth) == Some((raw[0], raw[1..])) && [raw[0]] + raw[1..] == raw;
    } else if LookAhead(defs, raw, depth).Some? {
      hide LookAhead;
      var (t, left) := LookAhead(defs, raw, depth).value;
      LookAheadIsPlain(defs, raw, depth);
      LogicalFirst([t] + left);
      assert ([t] + left)[0] == t;
      if Parameters(Logical([t] + left), []).Some? { ParametersGrow(Logical([t] + left), []); }
    }
  }

  lemma LogicalOne(t: Token, ts: seq<Token>)
    requires !IsBackslash(t)
    ensures Logical([t] + ts) == [t] + Logical(ts) && Rest([t] + ts) == ts
  {
    hide IsBackslash;
    LogicalFirst([t] + ts);
    assert ([t] + ts)[1..] == ts;
  }

  /** So `#define X A` and `#define F(X) X` make F a define with the parameter A and the
      body X. */
  lemma FirstParameterExpanded(defs: map<string, Define>, f: Token, open: Token, x: Token, a: Token, close: Token,
          fuel: nat)
    requires f.typ == TT_NAME && f.str !in defs && x.typ == TT_NAME && x.str in defs && a.typ == TT_NAME
    requires a.str !in defs
    requires f.str != x.str && f.str != a.str && a.str != ")" && close.typ == TT_PUNCTUATION
    requires open.str == "(" && !open.whitespace && close.str == ")" && BodyOf(defs[x.str]) == Some([a])
    requires forall t <- [f, open, x, a, close] :: OnLine(t)
    requires x.str != "##" && fuel > 2
    ensures ParsedDefine(defs, [f] + ([open] + ([x] + ([close] + [x]))), fuel)
         == Some(Define(f.str, [a.str], [ClearWhiteSpace(x)], false))
  {
    hide BodyOf, LookAhead, LookNeed, Parameters, ParametersAndBody, Logical, Rest;
    var (behind, d) := ([x] + ([close] + [x]), Define(f.str, [], [], false));
    assert x in [f, open, x, a, close] && close in [f, open, x, a, close] && open in [f, open, x, a, close]
        && f in [f, open, x, a, close];
    LogicalOne(f, [open] + behind);
    LogicalOne(open, behind);
    var defs' := defs[f.str := d];
    LooksPastName(defs', x, a, [close] + [x], fuel);
    LineOfThree(a, close, x);
    LineOfThree(x, close, x);
    ParametersOfOne(a, close, x);
    assert ParametersAndBody(defs', behind, fuel) == Some(([a.str], [x])) by {
      ParsesParameters(defs', behind, a, [close] + [x], fuel);
    }
    ClearedOne(f.str, x);
  }

  lemma LooksPastName(defs: map<string, Define>, x: Token, a: Token, left: seq<Token>, depth: nat)
    requires x.typ == TT_NAME && x.str in defs && a.typ == TT_NAME && a.str !in defs && BodyOf(defs[x.str]) == Some([a])
    requires depth > 1
    ensures LookAhead(defs, [x] + left, depth) == Some((a, left)) && LookNeed(defs, [x] + left, depth) == 2
  {
    hide BodyOf, Spread, SpreadNeed;
    ObjectSpreads(defs, defs[x.str], left, depth - 1);
    assert ([x] + left)[1..] == left && ([a] + left)[0] == a && ([a] + left)[1..] == left;
    assert LookAhead(defs, [a] + left, depth - 1) == Some((a, left)) && LookNeed(defs, [a] + left, depth - 1) == 1;
  }

  lemma LineOfThree(a: Token, close: Token, x: Token)
    requires OnLine(a) && OnLine(close) && OnLine(x)
    ensures Logical([a] + ([close] + [x])) == [a, close, x]
    ensures OnLines([a] + ([close] + [x]), 0) && Crossing([a] + ([close] + [x]), 0) == 0
  {
    var ts := [a] + ([close] + [x]);
    OnLineInFront(ts, []);
    assert ts + [] == ts && ts == [a, close, x] && Logical([]) == [];
  }

  lemma ParametersOfOne(a: Token, close: Token, x: Token)
    requires a.typ == TT_NAME && close.str == ")"
    ensures Parameters([a, close, x], []) == Some(([a.str], [x]))
  {
    assert [a, close, x][2..] == [x] && [] + [a.str] == [a.str];
  }

  lemma ParsesParameters(defs: map<string, Define>, raw: seq<Token>, t: Token, left: seq<Token>, depth: nat)
    requires LookAhead(defs, raw, depth) == Some((t, left)) && t.str != ")" && SameLineEnd([t] + left, raw)
    ensures ParametersAndBody(defs, raw, depth) == Parameters(Logical([t] + left), [])
  {
    hide LookAhead, Logical, OnLines, Crossing;
  }

  lemma ClearedOne(name: string, x: Token)
    requires x.str != name && x.str != "##"
    ensures Cleared(name, [x]) == [ClearWhiteSpace(x)] && !MisplacedMerge(Cleared(name, [x]))
  {
    assert [x][1..] == [];
  }

  lemma UndefStep(s: Source, c: Context, line: Line, raw: seq<Token>, ts: seq<Token>, fuel: nat) returns (s': Source)
    requires IsLine(line, "undef") && At(s, c, LineTokens(line) + (raw + ts)) && c.skip == 0 && NameLine(raw)
    ensures Valid(s) && ReadStep(s, fuel) == Continues(s')
    ensures At(s',
         c.(defs := if NameOf(raw) in c.defs && !c.defs[NameOf(raw)].fixed then c.defs - {NameOf(raw)} else c.defs), ts)
  {
    hide ReadStep, IsLine, ReadLine, OnLines, Logical;
    var s1 := DirectiveStep(s, c, line, "undef", raw + ts, fuel);
    NameIsRead(s1, c, raw, ts);
    s' := Directive("undef", s1, fuel).src;
    assert Stream(s') == Stream(ReadLine(s1).src);
  }

  // -------------------------------------------------------- skipped texts

  lemma {:induction false} SkipTokens(s: Source, c: Context, ts: seq<Token>, tail: seq<Token>, fuel: nat)
      returns (n: nat, s': Source)
    requires At(s, c, ts + tail) && c.skip > 0 && NoDirectives(ts)
    ensures Advance(s, n, fuel) == Some(Run([], s')) && At(s', c, tail)
    decreases ts
  {
    if ts == [] {
      assert ts + tail == tail;
      n, s' := 0, s;
    } else {
      assert ts + tail == [ts[0]] + (ts[1..] + tail);
      ReadsNext(s, c, ts[0], ts[1..] + tail);
      assert ts[0] in ts;
      n, s' := SkipTokens(ReadSourceToken(s).src, c, ts[1..], tail, fuel);
      AdvanceSilently(s, n, fuel);
      n := n + 1;
    }
  }

  /** A #define or #undef line that is skipped: the directive itself does nothing,
      and the rest of the line is skipped like other tokens. */
  lemma SkipsLine(s: Source, c: Context, line: Line, word: string, ts: seq<Token>, tail: seq<Token>, fuel: nat)
      returns (n: nat, s': Source)
    requires (word == "define" || word == "undef") && IsLine(line, word)
    requires At(s, c, LineTokens(line) + (ts + tail)) && c.skip > 0 && NoDirectives(ts)
    ensures Advance(s, n, fuel) == Some(Run([], s')) && At(s', c, tail)
  {
    hide ReadStep, IsLine;
    var s1 := DirectiveStep(s, c, line, word, ts + tail, fuel);
    assert Directive(word, s1, fuel) == Ok(s1) && ReadStep(s, fuel) == Continues(s1);
    n, s' := SkipTokens(s1, c, ts, tail, fuel);
    AdvanceSilently(s, n, fuel);
    n := n + 1;
  }

  lemma SkippableFirst(defs: map<string, Define>, text: Text, fuel: nat)
    requires !text.Empty? && !text.Region? && Skippable(defs, text, fuel)
    ensures if text.DefineLine? || text.UndefLine? then FirstTokens(text) == LineTokens(text.line) + text.raw
         && NoDirectives(text.raw)
            else NoDirectives(FirstTokens(text))
  {
    hide LineTokens;
  }

  /** The first item of a skipped text. */
  lemma SkipsFirst(s: Source, c: Context, text: Text, after: seq<Token>, fuel: nat) returns (n: nat, s': Source)
    requires !text.Empty? && !text.Region? && c.skip > 0 && Skippable(c.defs, text, fuel)
    requires text.DefineLine? ==> IsLine(text.line, "define")
    requires text.UndefLine? ==> IsLine(text.line, "undef")
    requires At(s, c, FirstTokens(text) + after)
    ensures Advance(s, n, fuel) == Some(Run([], s')) && At(s', c, after)
  {
    hide Advance, IsLine, At, FirstTokens, Skippable, LineTokens, NoDirectives;
    SkippableFirst(c.defs, text, fuel);
    if text.DefineLine? || text.UndefLine? {
      assert FirstTokens(text) + after == LineTokens(text.line) + (text.raw + after);
      n, s' := SkipsLine(s, c, text.line, if text.DefineLine? then "define" else "undef", text.raw, after, fuel);
    } else {
      n, s' := SkipTokens(s, c, FirstTokens(text), after, fuel);
    }
  }

  // ---------------------------------------------------------- whole texts

  /** What a text yields: nothing while something is skipped, otherwise what the
      recursive reading gives. */
  ghost function Yield(c: Context, text: Text, depth: nat, fuel: nat): Option<(seq<Token>, map<string, Define>)> {
    if c.skip > 0 then if Skippable(c.defs, text, fuel) then Some(([], c.defs)) else None
    else Preprocessed(c.defs, text, depth, fuel)
  }

  /** `n` rounds from `s`, reading in context `c`, yield what the text yields. */
  ghost predicate Runs(s: Source, n: nat, s': Source, c: Context, y: (seq<Token>, map<string, Define>),
          tail: seq<Token>, fuel: nat)
  {
    Valid(s) && Advance(s, n, fuel) == Some(Run(y.0, s')) && At(s', c.(defs := y.1), tail)
  }

  lemma RunsTogether(s: Source, n: nat, s1: Source, out: seq<Token>, m: nat, s2: Source, out': seq<Token>, fuel: nat)
    requires Valid(s) && Advance(s, n, fuel) == Some(Run(out, s1)) && Advance(s1, m, fuel) == Some(Run(out', s2))
    ensures Advance(s, n + m, fuel) == Some(Run(out + out', s2))
  {
    hide Advance;
    AdvanceMore(s, n, m, fuel);
  }

  lemma RunsStep(s: Source, s1: Source, fuel: nat)
    requires Valid(s) && ReadStep(s, fuel) == Continues(s1)
    ensures Advance(s, 1, fuel) == Some(Run([], s1))
  {
    hide ReadStep;
    AdvanceSilently(s, 0, fuel);
  }

  lemma {:induction false} LineEndsBefore(c: Context, text: Text, tail: seq<Token>, after: nat, cross: nat)
    requires StartCrosses(text, after) > cross && Follows(c, tail, after)
    ensures LineEnds(c, Flatten(text) + tail, cross)
    decreases text
  {
    if text.Empty? {
      assert Flatten(text) + tail == tail;
    } else if text.Plain? && text.ts == [] {
      assert Flatten(text) + tail == Flatten(text.rest) + tail;
      LineEndsBefore(c, text.rest, tail, after, cross);
    }
  }

  /** A text without its first item. */
  lemma {:induction false} RunsFirst(s: Source, c: Context, text: Text, tail: seq<Token>, after: nat, depth: nat,
          fuel: nat)
      returns (n: nat, s': Source, out: seq<Token>, defs: map<string, Define>)
    requires !text.Empty? && !text.Region?
    requires At(s, c, Flatten(text) + tail) && c.skip >= 0 && Follows(c, tail, after) && Lined(text, after)
    requires Yield(c, text, depth, fuel).Some?
    ensures Runs(s, n, s', c, (out, defs), Flatten(text.rest) + tail, fuel)
    ensures var later := Yield(c.(defs := defs), text.rest, depth, fuel);
            later.Some? && Yield(c, text, depth, fuel).value == (out + later.value.0, later.value.1)
  {
    hide ReadStep, Advance, At, IsLine, Flatten, LineEnds, OnLines, Crossing, FirstYields, Preprocessed, Skippable,
      Follows;
    var behind := Flatten(text.rest) + tail;
    FlattenFirst(text, tail);
    AtIsValid(s, c, FirstTokens(text) + behind);
    if c.skip > 0 {
      SkippableRest(c.defs, text, fuel);
      out, defs := [], c.defs;
      assert out + out == out;
      n, s' := SkipsFirst(s, c, text, behind, fuel);
    } else {
      PreprocessedFirst(c.defs, text, depth, fuel);
      var y := FirstYields(c.defs, text, depth, fuel).value;
      out, defs := y.0, y.1;
      n, s' := ReadsFirst(s, c, text, tail, after, depth, fuel);
    }
  }

  lemma FlattenFirst(text: Text, tail: seq<Token>)
    requires !text.Empty? && !text.Region?
    ensures Flatten(text) + tail == FirstTokens(text) + (Flatten(text.rest) + tail)
  {
    hide FirstTokens;
  }

  lemma SkippableRest(defs: map<string, Define>, text: Text, fuel: nat)
    requires !text.Empty? && !text.Region? && Skippable(defs, text, fuel)
    ensures Skippable(defs, text.rest, fuel)
  {
  }

  lemma PreprocessedFirst(defs: map<string, Define>, text: Text, depth: nat, fuel: nat)
    requires !text.Empty? && !text.Region? && Preprocessed(defs, text, depth, fuel).Some?
    ensures FirstYields(defs, text, depth, fuel).Some?
    ensures var y := FirstYields(defs, text, depth, fuel).value;
            var later := Preprocessed(y.1, text.rest, depth, fuel);
            later.Some? && Preprocessed(defs, text, depth, fuel).value == (y.0 + later.value.0, later.value.1)
  {
    hide FirstYields;
  }

  /** The first item of a text that is not skipped. */
  lemma ReadsFirst(s: Source, c: Context, text: Text, tail: seq<Token>, after: nat, depth: nat, fuel: nat)
      returns (n: nat, s': Source)
    requires !text.Empty? && !text.Region? && c.skip == 0 && FirstYields(c.defs, text, depth, fuel).Some?
    requires At(s, c, FirstTokens(text) + (Flatten(text.rest) + tail)) && Follows(c, tail, after) && Lined(text, after)
    ensures var (out, defs) := FirstYields(c.defs, text, depth, fuel).value;
            Valid(s) && Advance(s, n, fuel) == Some(Run(out, s')) && At(s', c.(defs := defs), Flatten(text.rest) + tail)
  {
    hide ReadStep, Advance, At, IsLine, Flatten, LineEnds, OnLines, Crossing, ParsedDefine, NameLine, NameOf, Follows,
      Expanded, Need, HasParameters, Logical, StartCrosses;
    var behind := Flatten(text.rest) + tail;
    AtIsValid(s, c, FirstTokens(text) + behind);
    match text
    case Plain(ts, rest) => n, s' := ReadsExpanded(s, c, ts, behind, depth, fuel);
    case DefineLine(line, raw, rest) =>
      assert FirstTokens(text) + behind == LineTokens(line) + (raw + behind);
      LineEndsBefore(c, rest, tail, after, Crossing(raw, 0));
      s' := DefineStep(s, c, line, raw, behind, fuel);
      RunsStep(s, s', fuel);
      n := 1;
    case UndefLine(line, raw, rest) =>
      assert FirstTokens(text) + behind == LineTokens(line) + (raw + behind);
      s' := UndefStep(s, c, line, raw, behind, fuel);
      RunsStep(s, s', fuel);
      n := 1;
  }

  /** What the two branches and the rest of a region yield, each in the context
      its lines are read in. */
  lemma {:induction false} YieldRegion(c: Context, text: Text, typ: IndentType, depth: nat, fuel: nat)
    requires text.Region? && c.skip >= 0 && Yield(c, text, depth, fuel).Some?
    ensures Taken(c.defs, text.head, fuel).Some?
    ensures var taken := Taken(c.defs, text.head, fuel).value;
            var y1 := Yield(Pushed(c, typ, !taken), text.thn, depth, fuel);
            y1.Some? &&
            var c1 := c.(defs := y1.value.1);
            var y2 := if text.elseLine.Some? then Yield(Pushed(c1, INDENT_ELSE, taken), text.els, depth, fuel)
                else Some(([], c1.defs));
            y2.Some? &&
            var y3 := Yield(c.(defs := y2.value.1), text.rest, depth, fuel);
            y3.Some? && Yield(c, text, depth, fuel).value == (y1.value.0 + y2.value.0 + y3.value.0, y3.value.1)
  {
    assert forall a: seq<Token> :: a + [] == a && [] + a == a;
  }

  /** From the stack and counter to the recursion: reading the lines of a text,
      in any context, yields what the recursive reading of it yields. */
  lemma {:induction false} RunsText(s: Source, c: Context, text: Text, tail: seq<Token>, after: nat, depth: nat,
          fuel: nat)
      returns (n: nat, s': Source)
    requires At(s, c, Flatten(text) + tail) && c.skip >= 0 && Follows(c, tail, after) && Lined(text, after)
    requires Yield(c, text, depth, fuel).Some?
    ensures Runs(s, n, s', c, Yield(c, text, depth, fuel).value, tail, fuel)
    decreases text, 2
  {
    hide Advance, Yield, Follows;
    match text
    case Empty =>
      assert Flatten(text) + tail == tail;
      n, s' := RunsEmpty(s, c, tail, depth, fuel);
    case Region(_, _, _, _, _, _, _) =>
      n, s' := RunsRegion(s, c, text, tail, after, depth, fuel);
    case _ =>
      var m, s1, out, defs := RunsFirst(s, c, text, tail, after, depth, fuel);
      FollowsSame(c, defs, tail, after);
      LinedRest(text, after);
      n, s' := RunsText(s1, c.(defs := defs), text.rest, tail, after, depth, fuel);
      RunsTogether(s, m, s1, out, n, s', Yield(c.(defs := defs), text.rest, depth, fuel).value.0, fuel);
      n := m + n;
  }

  lemma LinedRest(text: Text, after: nat)
    requires !text.Empty? && Lined(text, after)
    ensures Lined(text.rest, after)
  {
  }

  lemma FollowsSame(c: Context, defs: map<string, Define>, tail: seq<Token>, after: nat)
    requires Follows(c, tail, after)
    ensures Follows(c.(defs := defs), tail, after)
  {
  }

  lemma RunsEmpty(s: Source, c: Context, tail: seq<Token>, depth: nat, fuel: nat) returns (n: nat, s': Source)
    requires At(s, c, tail) && Yield(c, Empty, depth, fuel).Some?
    ensures Runs(s, n, s', c, Yield(c, Empty, depth, fuel).value, tail, fuel)
  {
    n, s' := 0, s;
  }

  lemma Regroup(a: seq<Token>, b: seq<Token>, c: seq<Token>, d: seq<Token>)
    ensures a + b + c + d == a + (b + (c + d))
  {
    assert a + b + c + d == a + (b + c + d);
  }

  lemma FlattenRegion(text: Text)
    requires text.Region?
    ensures Flatten(text)
         == LineTokens(text.line) + text.head.raw + Flatten(text.thn) + FlattenElse(text) + LineTokens(text.endLine)
             + Flatten(text.rest)
    ensures LineTokens(text.endLine) != [] && LineTokens(text.endLine)[0] == text.endLine.hash
  {
    hide FlattenElse;
  }

  lemma RegroupRegion(text: Text, tail: seq<Token>)
    requires text.Region?
    ensures Flatten(text) + tail
         == LineTokens(text.line) + (text.head.raw + (Flatten(text.thn)
             + (FlattenElse(text) + (LineTokens(text.endLine) + (Flatten(text.rest) + tail)))))
    ensures var middle := FlattenElse(text) + (LineTokens(text.endLine) + (Flatten(text.rest) + tail));
            middle != [] && middle[0] == BranchEnd(text)
  {
    hide LineTokens, Flatten, FlattenElse, BranchEnd;
    FlattenRegion(text);
    var (start, els, end, rest) := (LineTokens(text.line), FlattenElse(text), LineTokens(text.endLine),
        Flatten(text.rest));
    var (front, closing) := (start + text.head.raw + Flatten(text.thn), end + (rest + tail));
    Regroup(front + els, end, rest, tail);
    Regroup(start, text.head.raw, Flatten(text.thn), els + closing);
    assert front + els + closing == front + (els + closing);
    StartsWithBranchEnd(text, closing);
  }

  lemma StartsWithBranchEnd(text: Text, closing: seq<Token>)
    requires text.Region? && closing != [] && closing[0] == text.endLine.hash
    ensures FlattenElse(text) + closing != [] && (FlattenElse(text) + closing)[0] == BranchEnd(text)
  {
    hide Flatten;
  }

  /** The first line of a region and the branch behind it. */
  lemma {:induction false} RunsThen(s: Source, c: Context, text: Text, middle: seq<Token>, after: nat, depth: nat,
          fuel: nat)
      returns (n: nat, s': Source, typ: IndentType)
    requires text.Region? && c.skip >= 0 && Lined(text, after) && Yield(c, text, depth, fuel).Some?
    requires At(s, c, LineTokens(text.line) + (text.head.raw + (Flatten(text.thn) + middle)))
    requires middle != [] && middle[0] == BranchEnd(text)
    ensures typ != INDENT_ELSE && Taken(c.defs, text.head, fuel).Some?
    ensures var skip := !Taken(c.defs, text.head, fuel).value;
            var y := Yield(Pushed(c, typ, skip), text.thn, depth, fuel);
            && y.Some? && Valid(s) && Advance(s, n, fuel) == Some(Run(y.value.0, s'))
            && At(s', Pushed(c.(defs := y.value.1), typ, skip), middle)
    decreases text, 0
  {
    hide Advance, ReadStep, Yield, Taken, IsLine, OnLines, Crossing, StartCrosses, LineEnds;
    YieldRegion(c, text, INDENT_IF, depth, fuel);
    var skip := !Taken(c.defs, text.head, fuel).value;
    if text.head.If? { LineEndsBefore(c, text.thn, middle, BranchEnd(text).linescrossed, Crossing(text.head.raw, 0)); }
    var s1;
    typ, s1 := HeadStep(s, c, text.line, text.head, Flatten(text.thn) + middle, fuel);
    YieldRegion(c, text, typ, depth, fuel);
    RunsStep(s, s1, fuel);
    n, s' := RunsText(s1, Pushed(c, typ, skip), text.thn, middle, BranchEnd(text).linescrossed, depth, fuel);
    var y := Yield(Pushed(c, typ, skip), text.thn, depth, fuel).value;
    RunsTogether(s, 1, s1, [], n, s', y.0, fuel);
    assert [] + y.0 == y.0;
    n := 1 + n;
  }

  /** The #else of a region, if it has one, and the branch behind it. */
  lemma {:induction false} RunsElse(s: Source, c: Context, text: Text, typ: IndentType, taken: bool,
          closing: seq<Token>, after: nat, depth: nat, fuel: nat)
      returns (n: nat, s': Source, typ': IndentType, skip': bool)
    requires text.Region? && c.skip >= 0 && Lined(text, after) && typ != INDENT_ELSE && closing != []
    requires closing[0] == text.endLine.hash
    requires At(s, Pushed(c, typ, !taken), FlattenElse(text) + closing)
    requires text.elseLine.Some? ==> Yield(Pushed(c, INDENT_ELSE, taken), text.els, depth, fuel).Some?
    ensures var y := if text.elseLine.Some? then Yield(Pushed(c, INDENT_ELSE, taken), text.els, depth, fuel)
         else Some(([], c.defs));
            && Valid(s) && Advance(s, n, fuel) == Some(Run(y.value.0, s'))
            && At(s', Pushed(c.(defs := y.value.1), typ', skip'), closing)
    decreases text, 0
  {
    hide ReadStep, Yield, IsLine;
    if text.elseLine.Some? {
      typ', skip' := INDENT_ELSE, taken;
      var line := text.elseLine.value;
      assert FlattenElse(text) + closing == LineTokens(line) + (Flatten(text.els) + closing);
      var s1 := ElseStep(s, c, line, typ, !taken, Flatten(text.els) + closing, fuel);
      RunsStep(s, s1, fuel);
      n, s' := RunsText(s1, Pushed(c, INDENT_ELSE, taken), text.els, closing, text.endLine.hash.linescrossed, depth,
          fuel);
      var y := Yield(Pushed(c, INDENT_ELSE, taken), text.els, depth, fuel).value;
      RunsTogether(s, 1, s1, [], n, s', y.0, fuel);
      assert [] + y.0 == y.0;
      n := 1 + n;
    } else {
      assert FlattenElse(text) + closing == closing;
      n, s', typ', skip' := 0, s, typ, !taken;
    }
  }

  lemma {:induction false} RunsRegion(s: Source, c: Context, text: Text, tail: seq<Token>, after: nat, depth: nat,
          fuel: nat)
      returns (n: nat, s': Source)
    requires text.Region?
    requires At(s, c, Flatten(text) + tail) && c.skip >= 0 && Follows(c, tail, after) && Lined(text, after)
    requires Yield(c, text, depth, fuel).Some?
    ensures Runs(s, n, s', c, Yield(c, text, depth, fuel).value, tail, fuel)
    decreases text, 1
  {
    hide Advance, ReadStep, Yield, Flatten, Follows, IsLine, Taken, StartCrosses;
    var behind := Flatten(text.rest) + tail;
    var closing := LineTokens(text.endLine) + behind;
    RegroupRegion(text, tail);
    LinedRest(text, after);
    var n1, s1, typ := RunsThen(s, c, text, FlattenElse(text) + closing, after, depth, fuel);
    YieldRegion(c, text, typ, depth, fuel);
    var taken := Taken(c.defs, text.head, fuel).value;
    var y1 := Yield(Pushed(c, typ, !taken), text.thn, depth, fuel).value;
    var c1 := c.(defs := y1.1);
    var n2, s2, typ', skip' := RunsElse(s1, c1, text, typ, taken, closing, after, depth, fuel);
    var y2 := if text.elseLine.Some? then Yield(Pushed(c1, INDENT_ELSE, taken), text.els, depth, fuel).value
        else ([], c1.defs);
    var c2 := c.(defs := y2.1);
    var s3 := EndifStep(s2, c2, text.endLine, typ', skip', behind, fuel);
    RunsStep(s2, s3, fuel);
    FollowsSame(c, y2.1, tail, after);
    var n4, s4 := RunsText(s3, c2, text.rest, tail, after, depth, fuel);
    n, s' := n1 + n2 + 1 + n4, s4;
    var out := Yield(c2, text.rest, depth, fuel).value.0;
    RunsTogether(s, n1, s1, y1.0, n2, s2, y2.0, fuel);
    RunsTogether(s, n1 + n2, s2, y1.0 + y2.0, 1, s3, [], fuel);
    assert y1.0 + y2.0 + [] == y1.0 + y2.0;
    RunsTogether(s, n1 + n2 + 1, s3, y1.0 + y2.0, n4, s4, out, fuel);
  }
}
