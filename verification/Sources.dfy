/** The pre-compiler as it is written: an object whose methods update its fields.
    Every method is proved to do to the state what the function of the same name
    in module Precompiler does. */
module Sources {
  import opened Options
  import opened Tokens
  import opened Macros
  import opened DefineTables
  import opened Precompiler
  import E = Evaluator
  import M = Merging

  /** How a call ends. `Lost` is a call that does not return within its bounds. */
  datatype Status = Success | Failure | Lost

  ghost function AsRead(t: Option<Token>, s: Source): Read {
    if t.Some? then Got(t.value, s) else NotRead(s)
  }

  ghost function AsDone(st: Status, s: Source): Done {
    match st
    case Success => Ok(s)
    case Failure => Fail(s)
    case Lost => Stuck
  }

  ghost function AsEvaluation(st: Status, i: int, f: real, s: Source): Evaluation {
    match st
    case Success => Value(i, f, s)
    case Failure => NoValue(s)
    case Lost => EvaluationStuck
  }

  ghost function AsArguments(st: Status, args: seq<seq<Token>>, s: Source): Arguments {
    match st
    case Success => Arguments(args, s)
    case Failure => NoArguments(s)
    case Lost => ArgumentsStuck
  }

  function DefinesOf(globals: seq<Define>): map<string, Define> {
    if globals == [] then map[]
    else var d := globals[|globals| - 1]; DefinesOf(globals[..|globals| - 1])[d.name := d]
  }

  lemma {:induction false} NamesOf(globals: seq<Define>, name: string)
    ensures name in DefinesOf(globals) <==> exists i :: 0 <= i < |globals| && globals[i].name == name
    decreases globals
  {
    if globals != [] {
      var before := globals[..|globals| - 1];
      NamesOf(before, name);
      assert forall i :: 0 <= i < |before| ==> globals[i] == before[i];
      assert name in DefinesOf(before) ==> exists i :: 0 <= i < |globals| && globals[i].name == name;
    }
  }

  /** PC_AddGlobalDefinesToSource. */
  method AddGlobalDefines(table: DefineTable, globals: seq<Define>)
    requires table.Valid() && table.defs == map[]
    requires forall i, j :: 0 <= i < j < |globals| ==> globals[i].name != globals[j].name
    modifies table, table.chains
    ensures table.Valid() && table.defs == DefinesOf(globals)
  {
    hide Represents;
    var i := 0;
    while i < |globals|
      invariant i <= |globals| && table.Valid() && table.defs == DefinesOf(globals[..i])
    {
      NamesOf(globals[..i], globals[i].name);
      table.Add(globals[i]);
      assert globals[..i + 1][..i] == globals[..i];
      i := i + 1;
    }
    assert globals[..i] == globals;
  }

  class LoadedSource {
    var tokens: seq<Token>
    var scriptstack: seq<Script>
    const definehash: DefineTable
    var indentstack: seq<Indent>
    var skip: int
    var loaded: nat
    const files: map<string, File>
    const includepath: string

    ghost predicate Good()
      reads this, definehash, definehash.chains
    {
      scriptstack != [] && definehash.Valid()
    }

    ghost function View(): Source
      reads this, definehash
    {
      Source(tokens, scriptstack, definehash.defs, indentstack, skip, loaded, files, includepath)
    }

    /** LoadSourceFile: one script, nothing skipped, and the global defines. */
    constructor (filename: string, file: File, globals: seq<Define>, files: map<string, File>, includepath: string)
      requires forall i, j :: 0 <= i < j < |globals| ==> globals[i].name != globals[j].name
      ensures Good() && fresh(definehash) && fresh(definehash.chains)
      ensures View()
           == Source([], [Script(0, filename, file.toks, file.clean)], DefinesOf(globals), [], 0, 1, files, includepath)
    {
      hide Represents;
      var table := new DefineTable();
      AddGlobalDefines(table, globals);
      this.tokens, this.scriptstack, this.definehash := [], [Script(0, filename, file.toks, file.clean)], table;
      this.indentstack, this.skip, this.loaded := [], 0, 1;
      this.files, this.includepath := files, includepath;
    }

    // --------------------------------------------------- indents and scripts

    method PushIndent(typ: IndentType, skip: bool)
      requires Good()
      modifies this
      ensures Good() && View() == Precompiler.PushIndent(old(View()), typ, skip)
    {
      var indent := Indent(typ, skip, scriptstack[0].id);
      this.skip := this.skip + Bit(skip);
      indentstack := [indent] + indentstack;
    }

    /** The indent that was on top, if it is one of the script being read. */
    method PopIndent() returns (indent: Option<Indent>)
      requires Good()
      modifies this
      ensures Good() && indent == TopIndent(old(View())) && View() == Precompiler.PopIndent(old(View()))
    {
      indent := None;
      if indentstack == [] { return; }
      if indentstack[0].script != scriptstack[0].id { return; }
      indent := Some(indentstack[0]);
      skip := skip - Bit(indentstack[0].skip);
      indentstack := indentstack[1..];
    }

    method PushScript(filename: string, file: File)
      requires Good()
      modifies this
      ensures Good() && View() == Precompiler.PushScript(old(View()), filename, file)
    {
      var i := 0;
      while i < |scriptstack|
        invariant i <= |scriptstack| && forall j :: 0 <= j < i ==> Fold(scriptstack[j].filename) != Fold(filename)
      {
        if Fold(scriptstack[i].filename) == Fold(filename) { return; }
        i := i + 1;
      }
      scriptstack := [Script(loaded, filename, file.toks, file.clean)] + scriptstack;
      loaded := loaded + 1;
    }

    // -------------------------------------------------------- source tokens

    method ReadSourceToken() returns (t: Option<Token>)
      requires Good()
      modifies this
      ensures Good() && AsRead(t, View()) == Precompiler.ReadSourceToken(old(View()))
    {
      hide Represents;
      while tokens == []
        invariant Good() && Precompiler.ReadSourceToken(View()) == Precompiler.ReadSourceToken(old(View()))
        decreases |scriptstack|
      {
        var script := scriptstack[0];
        if script.toks != [] {
          scriptstack := [script.(toks := script.toks[1..])] + scriptstack[1..];
          return Some(script.toks[0]);
        }
        if script.clean {
          DropIndents();
        }
        if |scriptstack| == 1 { return None; }
        scriptstack := scriptstack[1..];
      }
      t := Some(tokens[0]);
      tokens := tokens[1..];
    }

    /** Remove all indents of the script. */
    method DropIndents()
      requires Good()
      modifies this
      ensures Good() && View() == Precompiler.DropIndents(old(View()))
    {
      hide Represents;
      while indentstack != [] && indentstack[0].script == scriptstack[0].id
        invariant Good() && Precompiler.DropIndents(View()) == Precompiler.DropIndents(old(View()))
        decreases |indentstack|
      {
        var indent := PopIndent();
      }
    }

    method UnreadSourceToken(t: Token)
      requires Good()
      modifies this
      ensures Good() && View() == Precompiler.UnreadSourceToken(old(View()), t)
    {
      tokens := [t] + tokens;
    }

    method ReadLine() returns (t: Option<Token>)
      requires Good()
      modifies this
      ensures Good() && AsRead(t, View()) == Precompiler.ReadLine(old(View()))
    {
      hide Represents, Precompiler.ReadSourceToken;
      var crossline := 0;
      while true
        invariant Good() && ReadLineFrom(View(), crossline) == Precompiler.ReadLine(old(View()))
        decreases Remaining(View())
      {
        t := ReadSourceToken();
        if t.None? { return; }
        if t.value.linescrossed > crossline {
          UnreadSourceToken(t.value);
          return None;
        }
        crossline := 1;
        if t.value.str != "\\" { return; }
      }
    }

    // ------------------------------------------------------- macro expansion

    method ReadDefineParms(d: Define, fuel: nat) returns (st: Status, args: seq<seq<Token>>)
      requires Good() && d.parms != []
      modifies this
      ensures Good() && AsArguments(st, args, View()) == Precompiler.ReadDefineParms(old(View()), |d.parms|, fuel)
      ensures st == Success ==> |args| == |d.parms|
      decreases fuel, 2
    {
      hide Represents, Precompiler.ReadSourceToken, Precompiler.ExpandDefineIntoSource;
      args := seq(|d.parms|, _ => []);
      var t := ReadSourceToken();
      if t.None? { return Failure, args; }
      if |d.parms| > MAX_DEFINEPARMS { return Failure, args; }
      if t.value.str != "(" {
        UnreadSourceToken(t.value);
        return Failure, args;
      }
      var numparms, indent := 0, 1;
      var bound: nat := fuel;
      while true
        invariant Good() && bound <= fuel && numparms < |args| == |d.parms| && indent > 0
        invariant ReadArguments(View(), args, numparms, indent, bound)
             == Precompiler.ReadDefineParms(old(View()), |d.parms|, fuel)
        decreases bound
      {
        if bound == 0 { return Lost, args; }
        bound := bound - 1;
        t := ReadSourceToken();
        if t.None? { return Failure, args; }
        var token := t.value;
        if token.str == "," && indent <= 1 {
          numparms := numparms + 1;
          if numparms >= |d.parms| { return Failure, args; }
          continue;
        }
        if token.str == "(" {
          indent := indent + 1;
        } else if token.str == ")" {
          indent := indent - 1;
          if indent <= 0 { return Success, args; }
        } else if token.typ == TT_NAME {
          var newdefine := definehash.FindHashedDefine(token.str);
          if newdefine.Some? {
            st := ExpandDefineIntoSource(newdefine.value, bound);
            if st != Success { return st, args; }
            continue;
          }
        }
        args := args[numparms := args[numparms] + [token]];
      }
    }

    method ExpandDefineIntoSource(d: Define, fuel: nat) returns (st: Status)
      requires Good()
      modifies this
      ensures Good() && AsDone(st, View()) == Precompiler.ExpandDefineIntoSource(old(View()), d, fuel)
      decreases fuel, 3
    {
      hide Represents, Precompiler.ReadDefineParms, MergePass, Substitute;
      var args: seq<seq<Token>> := [];
      if d.parms != [] {
        st, args := ReadDefineParms(d, fuel);
        if st != Success { return; }
      }
      var list := SubstituteTokens(d, args);
      var expansion := MergeTokenList(list);
      if expansion.None? || expansion.value == [] { return Failure; }
      tokens := expansion.value + tokens;
      st := Success;
    }

    // ------------------------------------------------------------ evaluation

    method Evaluate(integer: bool, fuel: nat) returns (st: Status, i: int, f: real)
      requires Good()
      modifies this
      ensures Good() && AsEvaluation(st, i, f, View()) == EvaluateLine(old(View()), integer, fuel)
    {
      hide Represents, Precompiler.ReadLine, Precompiler.ExpandDefineIntoSource, E.Evaluate;
      i, f := 0, 0.0;
      var t := ReadLine();
      if t.None? { return Failure, i, f; }
      var list: seq<Token>, defined, bound := [], false, fuel;
      while true
        invariant Good() && t.Some?
        invariant CollectLine(View(), t.value, list, defined, integer, bound)
             == EvaluateLine(old(View()), integer, fuel)
        decreases bound
      {
        var token := t.value;
        if token.typ == TT_NAME && !defined && token.str != "defined" {
          var define := definehash.FindHashedDefine(token.str);
          if define.None? { return Failure, i, f; }
          st := ExpandDefineIntoSource(define.value, bound);
          if st != Success { return; }
        } else if token.typ == TT_STRING || token.typ == TT_LITERAL {
          return Failure, i, f;
        } else {
          list := list + [token];
          if token.typ == TT_NAME { defined := !defined; }
        }
        t := ReadLine();
        if t.None? { break; }
        if bound == 0 { return Lost, i, f; }
        bound := bound - 1;
      }
      st, i, f := EvaluateTokens(list, integer);
    }

    method EvaluateTokens(list: seq<Token>, integer: bool) returns (st: Status, i: int, f: real)
      requires Good()
      ensures AsEvaluation(st, i, f, View()) == EvaluateList(View(), list, integer)
    {
      hide Represents, E.Evaluate;
      var outcome := E.EvaluateTokens(definehash, list, integer);
      i, f := 0, 0.0;
      match outcome
      case Success(v, w) => st, i, f := Success, v, w;
      case Failure => st := Failure;
      case Crash => st := Lost;
    }

    method DollarEvaluate(integer: bool, fuel: nat) returns (st: Status, i: int, f: real)
      requires Good()
      modifies this
      ensures Good() && AsEvaluation(st, i, f, View()) == Precompiler.DollarEvaluate(old(View()), integer, fuel)
    {
      hide Represents, Precompiler.ReadSourceToken, Precompiler.ExpandDefineIntoSource, E.Evaluate, EvaluateList;
      i, f := 0, 0.0;
      var t := ReadSourceToken();
      if t.None? { return Failure, i, f; }
      t := ReadSourceToken();
      if t.None? { return Failure, i, f; }
      var list: seq<Token>, defined, indent, bound, closed := [], false, 1, fuel, false;
      while true
        invariant Good() && t.Some?
        invariant CollectDollar(View(), t.value, list, defined, indent, integer, bound)
             == Precompiler.DollarEvaluate(old(View()), integer, fuel)
        decreases bound
      {
        st, closed, list, defined, indent := TakeDollar(t.value, list, defined, indent, integer, bound);
        if st != Success { return; }
        if closed { break; }
        t := ReadSourceToken();
        if t.None? { break; }
        if bound == 0 { return Lost, i, f; }
        bound := bound - 1;
      }
      st, i, f := EvaluateTokens(list, integer);
    }

    /** What the loop does with one token: store it, expand it, or stop at the
        closing parenthesis. */
    method TakeDollar(token: Token, list: seq<Token>, defined: bool, indent: int, integer: bool, fuel: nat)
        returns (st: Status, closed: bool, list': seq<Token>, defined': bool, indent': int)
      requires Good()
      modifies this
      ensures Good()
      ensures CollectDollar(old(View()), token, list, defined, indent, integer, fuel)
           == if st != Success then AsEvaluation(st, 0, 0.0, View())
              else if closed then EvaluateList(View(), list', integer)
              else CollectDollarNext(View(), list', defined', indent', integer, fuel)
    {
      hide Represents, Precompiler.ReadSourceToken, Precompiler.ExpandDefineIntoSource, EvaluateList, CollectDollarNext;
      st, closed, list', defined', indent' := Success, false, list, defined, indent;
      if token.typ == TT_NAME {
        if defined || token.str == "defined" {
          defined' := !defined;
          list' := list + [token];
        } else {
          var define := definehash.FindHashedDefine(token.str);
          if define.None? { st := Failure; return; }
          st := ExpandDefineIntoSource(define.value, fuel);
        }
      } else if token.typ == TT_STRING || token.typ == TT_LITERAL {
        st := Failure;
      } else {
        if token.str != "" && token.str[0] == '(' {
          indent' := indent + 1;
        } else if token.str != "" && token.str[0] == ')' {
          indent' := indent - 1;
        }
        if indent' <= 0 { closed := true; return; }
        list' := list + [token];
      }
    }

    // ------------------------------------------------------------ directives

    method DirectiveIfDef(typ: IndentType) returns (st: Status)
      requires Good()
      modifies this
      ensures Good() && AsDone(st, View()) == DirectiveIfdef(old(View()), typ)
    {
      hide Represents, Precompiler.ReadLine;
      var t := ReadLine();
      if t.None? { return Failure; }
      if t.value.typ != TT_NAME {
        UnreadSourceToken(t.value);
        return Failure;
      }
      var d := definehash.FindHashedDefine(t.value.str);
      PushIndent(typ, (typ == INDENT_IFDEF) == d.None?);
      st := Success;
    }

    method DirectiveElse() returns (st: Status)
      requires Good()
      modifies this
      ensures Good() && AsDone(st, View()) == Precompiler.DirectiveElse(old(View()))
    {
      hide Represents;
      var indent := PopIndent();
      if indent.None? { return Failure; }
      if indent.value.typ == INDENT_ELSE { return Failure; }
      PushIndent(INDENT_ELSE, !indent.value.skip);
      st := Success;
    }

    method DirectiveEndif() returns (st: Status)
      requires Good()
      modifies this
      ensures Good() && AsDone(st, View()) == Precompiler.DirectiveEndif(old(View()))
    {
      hide Represents;
      var indent := PopIndent();
      st := if indent.None? then Failure else Success;
    }

    method DirectiveIf(fuel: nat) returns (st: Status)
      requires Good()
      modifies this
      ensures Good() && AsDone(st, View()) == Precompiler.DirectiveIf(old(View()), fuel)
    {
      hide Represents, EvaluateLine;
      var value, f;
      st, value, f := Evaluate(true, fuel);
      if st != Success { return; }
      PushIndent(INDENT_IF, value == 0);
    }

    method DirectiveElif(fuel: nat) returns (st: Status)
      requires Good()
      modifies this
      ensures Good() && AsDone(st, View()) == Precompiler.DirectiveElif(old(View()), fuel)
    {
      hide Represents, EvaluateLine;
      var indent := PopIndent();
      if indent.None? || indent.value.typ == INDENT_ELSE { return Failure; }
      var value, f;
      st, value, f := Evaluate(true, fuel);
      if st != Success { return; }
      PushIndent(INDENT_ELIF, value == 0);
    }

    method DirectiveUndef() returns (st: Status)
      requires Good()
      modifies this, definehash, definehash.chains
      ensures Good() && AsDone(st, View()) == Precompiler.DirectiveUndef(old(View()))
    {
      hide Represents, Precompiler.ReadLine;
      if skip > 0 { return Success; }
      var t := ReadLine();
      if t.None? { return Failure; }
      if t.value.typ != TT_NAME {
        UnreadSourceToken(t.value);
        return Failure;
      }
      definehash.Remove(t.value.str);
      st := Success;
    }

    /** The defined stuff: the rest of the line from token `t` on. */
    method ReadBody(d: Define, t: Token) returns (st: Status)
      requires Good() && d.name in definehash.defs
      modifies this, definehash, definehash.chains
      ensures Good() && AsDone(st, View()) == Precompiler.ReadBody(old(View()), d, t)
    {
      hide Represents, Precompiler.ReadLine;
      var define, token := d, t;
      while true
        invariant Good() && definehash.defs == old(definehash.defs) && define.name == d.name
        invariant Precompiler.ReadBody(View(), define, token) == Precompiler.ReadBody(old(View()), d, t)
        decreases Remaining(View())
      {
        if !(token.typ == TT_NAME && token.str == define.name) {
          define := define.(body := define.body + [ClearWhiteSpace(token)]);
        }
        var next := ReadLine();
        if next.None? { break; }
        token := next.value;
      }
      definehash.Update(define);
      if define.body != [] && (define.body[0].str == "##" || define.body[|define.body| - 1].str == "##") {
        return Failure;
      }
      st := Success;
    }

    /** The parameter names up to the closing parenthesis. */
    method ReadParmNames(d: Define) returns (r: Option<Define>)
      requires Good()
      modifies this, definehash, definehash.chains
      ensures Good() && (r, View()) == Precompiler.ReadParmNames(old(View()), d)
    {
      hide Represents, Precompiler.ReadLine;
      var define := d;
      while true
        invariant Good() && definehash.defs == old(definehash.defs) && define.name == d.name
        invariant Precompiler.ReadParmNames(View(), define) == Precompiler.ReadParmNames(old(View()), d)
        decreases Remaining(View())
      {
        var t := ReadLine();
        if t.None? || t.value.typ != TT_NAME || t.value.str in define.parms {
          StoreDefine(define);
          return None;
        }
        define := define.(parms := define.parms + [t.value.str]);
        t := ReadLine();
        if t.None? {
          StoreDefine(define);
          return None;
        }
        if t.value.str == ")" { return Some(define); }
        if t.value.str != "," {
          StoreDefine(define);
          return None;
        }
      }
    }

    /** The define as it is now, in the table. */
    method StoreDefine(d: Define)
      requires Good()
      modifies this, definehash, definehash.chains
      ensures Good() && View() == SetDefine(old(View()), d)
    {
      hide Represents;
      var found := definehash.FindHashedDefine(d.name);
      if found.Some? {
        definehash.Update(d);
      } else {
        definehash.Add(d);
      }
    }

    /** PC_CheckTokenString; None when reading the token does not end. */
    method CheckTokenString(str: string, fuel: nat) returns (r: Option<bool>)
      requires Good()
      modifies this, definehash, definehash.chains
      ensures Good() && r == Precompiler.CheckTokenString(old(View()), str, fuel).0
      ensures r.Some? ==> View() == Precompiler.CheckTokenString(old(View()), str, fuel).1
      decreases fuel, 0
    {
      hide Represents, Precompiler.ReadToken;
      if fuel == 0 { return None; }
      var st, t := ReadToken(fuel - 1, fuel - 1);
      if st == Lost { return None; }
      if st == Failure { return Some(false); }
      if t.str == str { return Some(true); }
      UnreadSourceToken(t);
      r := Some(false);
    }

    method DirectiveDefine(fuel: nat) returns (st: Status)
      requires Good()
      modifies this, definehash, definehash.chains
      ensures Good() && AsDone(st, View()) == Precompiler.DirectiveDefine(old(View()), fuel)
      decreases fuel, 2
    {
      hide Represents, Precompiler.ReadLine, Precompiler.DirectiveUndef, Precompiler.DefineTail;
      if skip > 0 { return Success; }
      var t := ReadLine();
      if t.None? { return Failure; }
      if t.value.typ != TT_NAME {
        UnreadSourceToken(t.value);
        return Failure;
      }
      var define := definehash.FindHashedDefine(t.value.str);
      if define.Some? {
        if define.value.fixed { return Failure; }
        UnreadSourceToken(t.value);
        st := DirectiveUndef();
        if st != Success { return; }
      }
      var d := Define(t.value.str, [], [], false);
      StoreDefine(d);
      st := DefineTail(d, fuel);
    }

    method DefineTail(d: Define, fuel: nat) returns (st: Status)
      requires Good() && d.name in definehash.defs
      modifies this, definehash, definehash.chains
      ensures Good() && AsDone(st, View()) == Precompiler.DefineTail(old(View()), d, fuel)
      decreases fuel, 1
    {
      hide Represents, Precompiler.ReadLine, Precompiler.CheckTokenString, Precompiler.ReadParmNames,
        Precompiler.ReadBody;
      var t := ReadLine();
      if t.None? { return Success; }
      if t.value.whitespace || t.value.str != "(" {
        st := ReadBody(d, t.value);
        return;
      }
      var empty := CheckTokenString(")", fuel);
      if empty.None? { return Lost; }
      var define := Some(d);
      if !empty.value {
        define := ReadParmNames(d);
        if define.None? { return Failure; }
      }
      t := ReadLine();
      StoreDefine(define.value);
      if t.None? { return Success; }
      st := ReadBody(define.value, t.value);
    }

    method ReadAngled(path: string) returns (r: string)
      requires Good()
      modifies this
      ensures Good() && (r, View()) == Precompiler.ReadAngled(old(View()), path)
    {
      hide Represents, Precompiler.ReadSourceToken;
      r := path;
      while true
        invariant Good() && Precompiler.ReadAngled(View(), r) == Precompiler.ReadAngled(old(View()), path)
        decreases Remaining(View())
      {
        var t := ReadSourceToken();
        if t.None? { return; }
        if t.value.linescrossed > 0 {
          UnreadSourceToken(t.value);
          return;
        }
        if t.value.typ == TT_PUNCTUATION && t.value.str != "" && t.value.str[0] == '>' { return; }
        r := r + t.value.str;
      }
    }

    method DirectiveInclude() returns (st: Status)
      requires Good()
      modifies this
      ensures Good() && AsDone(st, View()) == Precompiler.DirectiveInclude(old(View()))
    {
      hide Represents, Precompiler.ReadSourceToken, Precompiler.ReadAngled, ConvertPath, StripDoubleQuotes,
        Precompiler.PushScript;
      if skip > 0 { return Success; }
      var t := ReadSourceToken();
      if t.None? || t.value.linescrossed > 0 { return Failure; }
      var path: string;
      if t.value.typ == TT_STRING {
        path := ConvertPath(StripDoubleQuotes(t.value.str));
        if path !in files { path := includepath + path; }
      } else if t.value.typ == TT_PUNCTUATION && t.value.str != "" && t.value.str[0] == '<' {
        path := ReadAngled(includepath);
        if path == "" { return Failure; }
        path := ConvertPath(path);
      } else {
        return Failure;
      }
      if path !in files { return Failure; }
      PushScript(path, files[path]);
      st := Success;
    }

    method SkipLine()
      requires Good()
      modifies this
      ensures Good() && View() == Precompiler.SkipLine(old(View()))
    {
      hide Represents, Precompiler.ReadLine;
      while true
        invariant Good() && Precompiler.SkipLine(View()) == Precompiler.SkipLine(old(View()))
        decreases Remaining(View())
      {
        var t := ReadLine();
        if t.None? { return; }
      }
    }

    method PutBack(st: Status, i: int, f: real, integer: bool)
      requires Good()
      modifies this
      ensures Good() && AsDone(st, View()) == Precompiler.PutBack(old(AsEvaluation(st, i, f, View())), integer)
    {
      hide Represents;
      if st != Success { return; }
      UnreadSourceToken(if integer then IntegerToken(i) else FloatToken(f));
      if (if integer then i < 0 else f < 0.0) {
        UnreadSourceToken(SignToken());
      }
    }

    method Directive(name: string, fuel: nat) returns (st: Status)
      requires Good()
      modifies this, definehash, definehash.chains
      ensures Good() && AsDone(st, View()) == Precompiler.Directive(name, old(View()), fuel)
      decreases fuel, 3
    {
      hide Represents, Precompiler.DirectiveIf, DirectiveIfdef, Precompiler.DirectiveElif, Precompiler.DirectiveElse,
        Precompiler.DirectiveEndif, Precompiler.DirectiveInclude, Precompiler.DirectiveDefine,
        Precompiler.DirectiveUndef, Precompiler.ReadSourceToken, Precompiler.SkipLine, Precompiler.PutBack,
        EvaluateLine;
      var i, f;
      match name
      case "if" => st := DirectiveIf(fuel);
      case "ifdef" => st := DirectiveIfDef(INDENT_IFDEF);
      case "ifndef" => st := DirectiveIfDef(INDENT_IFNDEF);
      case "elif" => st := DirectiveElif(fuel);
      case "else" => st := DirectiveElse();
      case "endif" => st := DirectiveEndif();
      case "include" => st := DirectiveInclude();
      case "define" => st := DirectiveDefine(fuel);
      case "undef" => st := DirectiveUndef();
      case "line" => st := Failure;
      case "error" =>
        var t := ReadSourceToken();
        st := Failure;
      case "pragma" =>
        SkipLine();
        st := Success;
      case "eval" =>
        st, i, f := Evaluate(true, fuel);
        PutBack(st, i, f, true);
      case "evalfloat" =>
        st, i, f := Evaluate(false, fuel);
        PutBack(st, i, f, false);
      case _ => st := Failure;
    }

    method ReadDirective(fuel: nat) returns (st: Status)
      requires Good()
      modifies this, definehash, definehash.chains
      ensures Good() && AsDone(st, View()) == Precompiler.ReadDirective(old(View()), fuel)
      decreases fuel, 4
    {
      hide Represents, Precompiler.ReadSourceToken, Precompiler.Directive;
      var t := ReadSourceToken();
      if t.None? { return Failure; }
      if t.value.linescrossed > 0 {
        UnreadSourceToken(t.value);
        return Failure;
      }
      if t.value.typ != TT_NAME { return Failure; }
      st := Directive(t.value.str, fuel);
    }

    method ReadDollarDirective(fuel: nat) returns (st: Status)
      requires Good()
      modifies this
      ensures Good() && AsDone(st, View()) == Precompiler.ReadDollarDirective(old(View()), fuel)
    {
      hide Represents, Precompiler.ReadSourceToken, Precompiler.DollarEvaluate, Precompiler.PutBack;
      var t := ReadSourceToken();
      if t.None? { return Failure; }
      if t.value.linescrossed > 0 || t.value.typ != TT_NAME || (t.value.str != "evalint"
          && t.value.str != "evalfloat") {
        UnreadSourceToken(t.value);
        return Failure;
      }
      var integer, i, f := t.value.str == "evalint", 0, 0.0;
      st, i, f := DollarEvaluate(integer, fuel);
      PutBack(st, i, f, integer);
    }

    // ---------------------------------------------------------- PC_ReadToken

    /** One round of the loop: a token is found, or the loop goes on, or it ends. */
    method ReadRound(fuel: nat) returns (st: Status, t: Option<Token>)
      requires Good()
      modifies this, definehash, definehash.chains
      ensures Good()
      ensures Precompiler.ReadStep(old(View()), fuel)
           == match (st, t)
              case (Success, Some(token)) => Returns(token, View())
              case (Success, None) => Continues(View())
              case (Failure, _) => Stops(View())
              case (Lost, _) => StepStuck
      decreases fuel, 5
    {
      hide Represents, Precompiler.ReadSourceToken, Precompiler.ReadDirective, Precompiler.ReadDollarDirective,
        Precompiler.ExpandDefineIntoSource;
      t := ReadSourceToken();
      if t.None? { return Failure, None; }
      var token := t.value;
      t := None;
      if StartsWith(token, '#') {
        st := ReadDirective(fuel);
      } else if StartsWith(token, '$') {
        st := ReadDollarDirective(fuel);
      } else if skip != 0 {
        st := Success;
      } else {
        var define := None;
        if token.typ == TT_NAME {
          define := definehash.FindHashedDefine(token.str);
        }
        if define.Some? {
          st := ExpandDefineIntoSource(define.value, fuel);
        } else {
          st, t := Success, Some(token);
        }
      }
    }

    /** PC_ReadToken. */
    method ReadToken(rounds: nat, fuel: nat) returns (st: Status, token: Token)
      requires Good()
      modifies this, definehash, definehash.chains
      ensures Good()
      ensures Precompiler.ReadToken(old(View()), rounds, fuel)
           == match st
              case Success => Got(token, View())
              case Failure => NotRead(View())
              case Lost => ReadStuck
      decreases fuel, 6, rounds, 1
    {
      hide Represents, Precompiler.ReadStep;
      token := SignToken();
      var left: nat := rounds;
      while left > 0
        invariant Good() && left <= rounds
        invariant Precompiler.ReadToken(View(), left, fuel) == Precompiler.ReadToken(old(View()), rounds, fuel)
        decreases left
      {
        var t;
        st, t := ReadRound(fuel);
        left := left - 1;
        if st != Success { return; }
        if t.Some? {
          token := t.value;
          if token.typ == TT_STRING {
            st, token := JoinFollowing(token, left, fuel);
          }
          return;
        }
      }
      st := Lost;
    }

    /** The strings behind a string. */
    method JoinFollowing(t: Token, rounds: nat, fuel: nat) returns (st: Status, token: Token)
      requires Good() && t.typ == TT_STRING
      modifies this, definehash, definehash.chains
      ensures Good()
      ensures (match Precompiler.ReadToken(old(View()), rounds, fuel)
               case ReadStuck => ReadStuck
               case NotRead(s) => Got(t, s)
               case Got(u, s) =>
                 if u.typ != TT_STRING || t.str == "" || u.str == "" then Got(t, Precompiler.UnreadSourceToken(s, u))
                 else if !JoinFits(t, u) then NotRead(s)
                 else Got(JoinStrings(t, u), s))
           == match st
              case Success => Got(token, View())
              case Failure => NotRead(View())
              case Lost => ReadStuck
      decreases fuel, 6, rounds, 2
    {
      hide Represents, Precompiler.ReadToken;
      token := t;
      var found, newtoken := ReadToken(rounds, fuel);
      if found == Lost { return Lost, token; }
      if found == Success {
        if newtoken.typ == TT_STRING && t.str != "" && newtoken.str != "" {
          if !JoinFits(t, newtoken) { return Failure, token; }
          token := JoinStrings(t, newtoken);
        } else {
          UnreadSourceToken(newtoken);
        }
      }
      st := Success;
    }
  }

  /** One round of the substitution: what the token at `dt` is replaced by, and
      where to go on. */
  method SubstituteToken(d: Define, args: seq<seq<Token>>, dt: nat) returns (piece: seq<Token>, next: nat)
    requires |args| == |d.parms| && dt < |d.body|
    ensures dt < next <= |d.body|
    ensures Substitute(d.body[dt..], d.parms, args) == piece + Substitute(d.body[next..], d.parms, args)
  {
    hide Stringize;
    ghost var body := d.body[dt..];
    assert body[0] == d.body[dt] && body[1..] == d.body[dt + 1..];
    assert dt + 1 < |d.body| ==> body[1] == d.body[dt + 1] && body[2..] == d.body[dt + 2..];
    piece, next := [], dt + 1;
    var parmnum := if d.body[dt].typ == TT_NAME then FindDefineParm(d.parms, d.body[dt].str) else None;
    if parmnum.Some? {
      piece := args[parmnum.value];
    } else if d.body[dt].str == "#" {
      parmnum := if dt + 1 < |d.body| then FindDefineParm(d.parms, d.body[dt + 1].str) else None;
      if parmnum.Some? {
        piece, next := [Stringize(args[parmnum.value])], dt + 2;
      }
    } else {
      piece := [d.body[dt]];
    }
    assert forall ts: seq<Token> :: [] + ts == ts;
  }

  /** The loop of PC_ExpandDefine that builds the list of the expanded define. */
  method SubstituteTokens(d: Define, args: seq<seq<Token>>) returns (list: seq<Token>)
    requires |args| == |d.parms|
    ensures list == Substitute(d.body, d.parms, args)
  {
    hide Substitute;
    list := [];
    var dt := 0;
    assert d.body[0..] == d.body && [] + Substitute(d.body, d.parms, args) == Substitute(d.body, d.parms, args);
    while dt < |d.body|
      invariant dt <= |d.body| && list + Substitute(d.body[dt..], d.parms, args) == Substitute(d.body, d.parms, args)
    {
      var piece, next := SubstituteToken(d, args, dt);
      assert list + (piece + Substitute(d.body[next..], d.parms, args))
          == (list + piece) + Substitute(d.body[next..], d.parms, args);
      list, dt := list + piece, next;
    }
    SubstituteNothing(d, args);
    assert d.body[dt..] == [] && list + [] == list;
  }

  lemma SubstituteNothing(d: Define, args: seq<seq<Token>>)
    requires |args| == |d.parms|
    ensures Substitute([], d.parms, args) == []
  {
  }

  /** The ## loop of PC_ExpandDefine on the list's tokens; Merging.MergeList is the
      same loop on its nodes. */
  method MergeTokenList(list: seq<Token>) returns (r: Option<seq<Token>>)
    ensures r == MergePass(list)
  {
    hide MergePass, MergeTokens;
    var ts, t := list, 0;
    M.MergePassWhole(list);
    while t < |ts|
      invariant t <= |ts| && M.Progress(ts, t) == MergePass(list)
      decreases |ts| - t
    {
      if t + 2 < |ts| && IsMerge(ts[t + 1]) {
        M.MergePassMerges(ts, t);
        var merged := MergeTokens(ts[t], ts[t + 2]);
        if merged.None? { return None; }
        var ts' := ts[..t] + ([merged.value] + ts[t + 3..]);
        assert ts'[..t] == ts[..t] && ts'[t..] == [merged.value] + ts[t + 3..];
        ts := ts';
      } else {
        M.MergePassSkips(ts, t);
        t := t + 1;
      }
    }
    M.MergePassDone(ts);
    r := Some(ts);
  }
}
