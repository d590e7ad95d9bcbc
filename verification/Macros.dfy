/** The body of a define turned into tokens: parameter substitution, # and ##
    (src/botlib/l_precomp.c:402-443, 558-573, 743-900). */
module Macros {
  import opened Tokens
  import opened Options

  const MAX_DEFINEPARMS := 128

  datatype Define = Define(name: string, parms: seq<string>, body: seq<Token>, fixed: bool)

  /** PC_FindDefineParm: the first parameter of that name. */
  function FindDefineParm(parms: seq<string>, name: string): (r: Option<nat>)
    ensures r.Some? ==> r.value < |parms| && parms[r.value] == name && name !in parms[..r.value]
    ensures r.None? ==> name !in parms
  {
    if parms == [] then None
    else if parms[0] == name then Some(0)
    else
      match FindDefineParm(parms[1..], name)
      case None => None
      case Some(i) => Some(i + 1)
  }

  function Spellings(ts: seq<Token>): string {
    if ts == [] then "" else ts[0].str + Spellings(ts[1..])
  }

  function Stringize(ts: seq<Token>): Token {
    Token("\"" + Spellings(ts) + "\"", TT_STRING, 0, 0, 0.0, 0, false)
  }

  /** A define's body with each parameter replaced by its argument. A # in front
      of a parameter makes a string of the argument; any other # is dropped. */
  function Substitute(body: seq<Token>, parms: seq<string>, args: seq<seq<Token>>): seq<Token>
    requires |args| == |parms|
    decreases |body|
  {
    if body == [] then []
    else
      var p := if body[0].typ == TT_NAME then FindDefineParm(parms, body[0].str) else None;
      if p.Some? then args[p.value] + Substitute(body[1..], parms, args)
      else if body[0].str != "#" then [body[0]] + Substitute(body[1..], parms, args)
      else
        var q := if |body| > 1 then FindDefineParm(parms, body[1].str) else None;
        if q.Some? then [Stringize(args[q.value])] + Substitute(body[2..], parms, args)
        else Substitute(body[1..], parms, args)
  }

  /** PC_MergeTokens: two strings, or a name and a name or number. */
  function MergeTokens(t: Token, u: Token): Option<Token> {
    if t.typ == TT_NAME && (u.typ == TT_NAME || u.typ == TT_NUMBER) then Some(t.(str := t.str + u.str))
    else if t.typ == TT_STRING && u.typ == TT_STRING && t.str != "" && u.str != "" then
      Some(t.(str := t.str[..|t.str| - 1] + u.str[1..]))
    else None
  }

  predicate IsMerge(t: Token) { |t.str| >= 2 && t.str[..2] == "##" }

  /** The ## pass; None is a pair that cannot be merged. */
  function MergePass(ts: seq<Token>): Option<seq<Token>>
    decreases |ts|
  {
    if ts == [] then Some([])
    else if |ts| >= 3 && IsMerge(ts[1]) then
      match MergeTokens(ts[0], ts[2])
      case None => None
      case Some(t) => MergePass([t] + ts[3..])
    else
      match MergePass(ts[1..])
      case None => None
      case Some(rest) => Some([ts[0]] + rest)
  }
}
