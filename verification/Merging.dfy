/** The ## pass: what it makes of chains of tokens, and the pointer program that
    carries it out in place (src/botlib/l_precomp.c:424-443, 854-886). */
module Merging {
  import opened Options
  import opened Tokens
  import opened Macros

  // ------------------------------------------------------------ the result

  /** A chain of tokens merged from left to right. */
  function Paste(chain: seq<Token>): Option<Token>
    requires chain != []
    decreases |chain|
  {
    if |chain| == 1 then Some(chain[0])
    else
      match MergeTokens(chain[0], chain[1])
      case None => None
      case Some(t) => Paste([t] + chain[2..])
  }

  /** The chain's tokens with a merge operator in each gap. */
  function Linked(chain: seq<Token>, ops: seq<Token>): seq<Token>
    requires |chain| == |ops| + 1
  {
    if ops == [] then chain else [chain[0], ops[0]] + Linked(chain[1..], ops[1..])
  }

  lemma {:induction false} MergesChain(chain: seq<Token>, ops: seq<Token>, rest: seq<Token>)
    requires |chain| == |ops| + 1 && (forall op <- ops :: IsMerge(op)) && (rest != [] ==> !IsMerge(rest[0]))
    ensures MergePass(Linked(chain, ops) + rest)
         == match (Paste(chain), MergePass(rest))
            case (Some(t), Some(ts)) => Some([t] + ts)
            case _ => None
    decreases |chain|
  {
    var ts := Linked(chain, ops) + rest;
    if ops == [] {
      assert ts[0] == chain[0] && ts[1..] == rest;
    } else {
      assert ops[0] in ops && Linked(chain[1..], ops[1..])[0] == chain[1];
      assert ts[0] == chain[0] && ts[1] == ops[0] && ts[2] == chain[1];
      match MergeTokens(chain[0], chain[1])
      case None =>
      case Some(t) =>
        LinkedTail(chain, ops, t);
        assert [t] + ts[3..] == Linked([t] + chain[2..], ops[1..]) + rest;
        MergesChain([t] + chain[2..], ops[1..], rest);
    }
  }

  lemma LinkedFirst(t: Token, chain: seq<Token>, ops: seq<Token>)
    requires |chain| == |ops|
    ensures Linked([t] + chain, ops) == if ops == [] then [t] else [t, ops[0]] + Linked(chain, ops[1..])
  {
    assert ([t] + chain)[1..] == chain;
  }

  lemma LinkedTail(chain: seq<Token>, ops: seq<Token>, t: Token)
    requires |chain| == |ops| + 1 && ops != []
    ensures |Linked(chain, ops)| >= 3 && Linked([t] + chain[2..], ops[1..]) == [t] + Linked(chain, ops)[3..]
  {
    hide Linked;
    var (a, b, later) := (chain[0], chain[1], chain[2..]);
    assert chain == [a] + ([b] + later);
    LinkedFirst(a, [b] + later, ops);
    LinkedFirst(b, later, ops[1..]);
    LinkedFirst(t, later, ops[1..]);
  }

  /** Each chain with the operators of its gaps. */
  ghost predicate Fit(chains: seq<seq<Token>>, gaps: seq<seq<Token>>) {
    |chains| == |gaps| && forall i :: 0 <= i < |chains| ==> |chains[i]| == |gaps[i]| + 1
  }

  ghost function LinkedAll(chains: seq<seq<Token>>, gaps: seq<seq<Token>>): seq<Token>
    requires Fit(chains, gaps)
  {
    if chains == [] then [] else Linked(chains[0], gaps[0]) + LinkedAll(chains[1..], gaps[1..])
  }

  function PasteAll(chains: seq<seq<Token>>): Option<seq<Token>>
    requires forall i :: 0 <= i < |chains| ==> chains[i] != []
  {
    if chains == [] then Some([])
    else
      match (Paste(chains[0]), PasteAll(chains[1..]))
      case (Some(t), Some(ts)) => Some([t] + ts)
      case _ => None
  }

  /** The pass replaces every chain by its pasted token, and fails exactly when
      one of them cannot be pasted. */
  lemma {:induction false} MergesChains(chains: seq<seq<Token>>, gaps: seq<seq<Token>>)
    requires Fit(chains, gaps) && (forall i :: 0 <= i < |gaps| ==> forall op <- gaps[i] :: IsMerge(op))
    requires forall i :: 0 <= i < |chains| ==> !IsMerge(chains[i][0])
    ensures MergePass(LinkedAll(chains, gaps)) == PasteAll(chains)
    decreases chains
  {
    if chains != [] {
      MergesChains(chains[1..], gaps[1..]);
      assert |chains| > 1 ==> LinkedAll(chains[1..], gaps[1..])[0] == chains[1][0];
      MergesChain(chains[0], gaps[0], LinkedAll(chains[1..], gaps[1..]));
    }
  }

  /** What can be pasted: one token, a name with names and numbers behind it, or
      strings only. */
  predicate Mergeable(chain: seq<Token>)
    requires chain != []
  {
    || |chain| == 1
    || (chain[0].typ == TT_NAME && forall t <- chain[1..] :: t.typ == TT_NAME || t.typ == TT_NUMBER)
    || (forall t <- chain :: t.typ == TT_STRING)
  }

  /** What stands between the quotes of strings. */
  function Inner(ts: seq<Token>): string {
    if ts == [] then "" else (if |ts[0].str| >= 2 then ts[0].str[1..|ts[0].str| - 1] else "") + Inner(ts[1..])
  }

  /** The pasted token: a name grows by the spellings behind it, strings keep only
      the outermost quotes. */
  ghost predicate PastedInto(chain: seq<Token>, t: Token)
    requires chain != []
  {
    && t == chain[0].(str := t.str)
    && (|chain| == 1 ==> t == chain[0])
    && (chain[0].typ == TT_NAME ==> t.str == Spellings(chain))
    && (chain[0].typ == TT_STRING ==> |t.str| >= 2 && t.str[1..|t.str| - 1] == Inner(chain))
  }

  /** Pasting a mergeable chain, and no other, succeeds. */
  lemma {:induction false} Pastes(chain: seq<Token>)
    requires chain != [] && forall t <- chain :: t.typ == TT_STRING ==> |t.str| >= 2
    ensures Paste(chain).Some? <==> Mergeable(chain)
    ensures Mergeable(chain) ==> PastedInto(chain, Paste(chain).value)
    decreases |chain|
  {
    assert chain[0] in chain;
    if |chain| == 1 {
      PastedSingle(chain[0]);
      assert chain == [chain[0]];
    } else {
      assert chain[1] in chain && chain[1] in chain[1..];
      match MergeTokens(chain[0], chain[1])
      case None =>
      case Some(t) =>
        assert forall u <- chain[2..] :: u in chain;
        Pastes([t] + chain[2..]);
        MergeableStep(chain, t);
        PastedStep(chain, t);
    }
  }

  lemma PastedSingle(t: Token)
    requires t.typ == TT_STRING ==> |t.str| >= 2
    ensures PastedInto([t], t)
  {
    assert [t][1..] == [] && t.str + "" == t.str;
    if t.typ == TT_STRING { assert t.str[1..|t.str| - 1] + "" == t.str[1..|t.str| - 1]; }
  }

  lemma PastedStep(chain: seq<Token>, t: Token)
    requires |chain| >= 2 && MergeTokens(chain[0], chain[1]) == Some(t)
    requires t.typ == TT_STRING ==> |chain[0].str| >= 2 && |chain[1].str| >= 2
    ensures forall u :: PastedInto([t] + chain[2..], u) ==> PastedInto(chain, u)
  {
    var chain' := [t] + chain[2..];
    assert chain'[1..] == chain[2..] == chain[1..][1..];
    if t.typ == TT_STRING {
      InnerStep(chain, t);
    } else {
      assert Spellings(chain) == chain[0].str + (chain[1].str + Spellings(chain[2..]));
      assert Spellings(chain') == (chain[0].str + chain[1].str) + Spellings(chain[2..]);
    }
    forall u | PastedInto(chain', u) ensures PastedInto(chain, u) {
      assert u == chain'[0].(str := u.str) == chain[0].(str := u.str);
    }
  }

  lemma MergeableStep(chain: seq<Token>, t: Token)
    requires |chain| >= 2 && MergeTokens(chain[0], chain[1]) == Some(t)
    ensures Mergeable([t] + chain[2..]) <==> Mergeable(chain)
  {
    var chain' := [t] + chain[2..];
    assert chain'[1..] == chain[2..] && chain[1..] == [chain[1]] + chain[2..] && chain == [chain[0]] + chain[1..];
    assert chain[0] in chain && chain[1] in chain[1..];
    if t.typ == TT_NAME {
      assert |chain| == 2 ==> chain[2..] == [];
      assert chain' [0] in chain';
    }
  }

  lemma InnerFirst(t: Token, ts: seq<Token>)
    ensures Inner([t] + ts) == (if |t.str| >= 2 then t.str[1..|t.str| - 1] else "") + Inner(ts)
  {
    assert ([t] + ts)[1..] == ts;
  }

  lemma InnerStep(chain: seq<Token>, t: Token)
    requires |chain| >= 2 && MergeTokens(chain[0], chain[1]) == Some(t) && t.typ == TT_STRING
    requires |chain[0].str| >= 2 && |chain[1].str| >= 2
    ensures |t.str| >= 2 && Inner([t] + chain[2..]) == Inner(chain)
  {
    var (a, b, later) := (chain[0].str, chain[1].str, chain[2..]);
    assert t.str == a[..|a| - 1] + b[1..];
    hide Inner, MergeTokens;
    assert t.str[1..|t.str| - 1] == a[1..|a| - 1] + b[1..|b| - 1];
    assert chain == [chain[0]] + ([chain[1]] + later);
    InnerFirst(chain[0], [chain[1]] + later);
    InnerFirst(chain[1], later);
    InnerFirst(t, later);
  }

  // -------------------------------------------------------- the pointer pass

  class TokenNode {
    var token: Token
    var next: TokenNode?

    constructor (token: Token)
      ensures this.token == token && this.next == null
    {
      this.token := token;
      this.next := null;
    }
  }

  /** `nodes` are the nodes of a list, in order; behind the last comes `after`. */
  ghost predicate IsList(nodes: seq<TokenNode>, after: TokenNode?)
    reads nodes
  {
    && (forall i {:trigger nodes[i].next} :: 0 <= i < |nodes| ==>
        nodes[i].next == if i + 1 < |nodes| then nodes[i + 1] else after)
    && (forall i, j :: 0 <= i < j < |nodes| ==> nodes[i] != nodes[j])
  }

  ghost function TokensOf(nodes: seq<TokenNode>): (r: seq<Token>)
    reads nodes
    ensures |r| == |nodes| && forall i :: 0 <= i < |nodes| ==> r[i] == nodes[i].token
  {
    seq(|nodes|, i requires 0 <= i < |nodes| reads nodes => nodes[i].token)
  }

  ghost function Behind(ts: seq<Token>, rest: Option<seq<Token>>): Option<seq<Token>> {
    if rest.None? then None else Some(ts + rest.value)
  }

  /** Put `merged` in the place of the node's token, the ## and the token behind it. */
  method MergeAt(t: TokenNode, merged: Token, ghost nodes: seq<TokenNode>, ghost i: nat)
      returns (ghost shorter: seq<TokenNode>)
    requires IsList(nodes, null) && i + 2 < |nodes| && nodes[i] == t
    modifies t
    ensures shorter == nodes[..i + 1] + nodes[i + 3..] && IsList(shorter, null)
    ensures TokensOf(shorter) == old(TokensOf(nodes))[..i] + ([merged] + old(TokensOf(nodes))[i + 3..])
  {
    assert t.next == nodes[i + 1] && t.next.next == nodes[i + 2];
    t.token := merged;
    t.next := t.next.next.next;
    shorter := nodes[..i + 1] + nodes[i + 3..];
    assert forall k :: 0 <= k < |shorter| ==> shorter[k] == if k <= i then nodes[k] else nodes[k + 2];
  }

  /** The result of the whole pass when it has got to token `i`. */
  ghost function Progress(ts: seq<Token>, i: nat): Option<seq<Token>>
    requires i <= |ts|
  {
    Behind(ts[..i], MergePass(ts[i..]))
  }

  /** What stays of a list when the two nodes behind node `i` go. */
  lemma Shortened(nodes: seq<TokenNode>, i: nat, last: TokenNode, repr: set<TokenNode>)
    requires i + 2 < |nodes| && nodes[|nodes| - 1] == last && forall k :: 0 <= k < |nodes| ==> nodes[k] in repr
    ensures var shorter := nodes[..i + 1] + nodes[i + 3..];
            && shorter != [] && shorter[0] == nodes[0] && shorter[i] == nodes[i] && |shorter| == |nodes| - 2
            && shorter[|shorter| - 1] == (if i + 3 == |nodes| then nodes[i] else last)
            && forall k :: 0 <= k < |shorter| ==> shorter[k] in repr
  {
  }

  lemma ShortenedProgress(ts: seq<Token>, ts': seq<Token>, i: nat, merged: Token)
    requires i + 2 < |ts| && IsMerge(ts[i + 1]) && MergeTokens(ts[i], ts[i + 2]) == Some(merged)
    requires ts' == ts[..i] + ([merged] + ts[i + 3..])
    ensures Progress(ts', i) == Progress(ts, i)
  {
    hide MergePass, MergeTokens;
    MergePassMerges(ts, i);
    assert ts'[..i] == ts[..i] && ts'[i..] == [merged] + ts[i + 3..];
  }

  /** One round of the pass: merge at node `t`, or go on to the next node. */
  method MergeStep(t: TokenNode, last: TokenNode, ghost nodes: seq<TokenNode>, ghost i: nat, ghost repr: set<TokenNode>)
      returns (ok: bool, next: TokenNode?, newlast: TokenNode, ghost nodes': seq<TokenNode>, ghost i': nat)
    requires IsList(nodes, null) && i < |nodes| && nodes[i] == t && nodes[|nodes| - 1] == last
    requires forall k :: 0 <= k < |nodes| ==> nodes[k] in repr
    modifies t
    ensures nodes' != [] && nodes'[0] == nodes[0] && nodes'[|nodes'| - 1] == newlast && IsList(nodes', null)
    ensures forall k :: 0 <= k < |nodes'| ==> nodes'[k] in repr
    ensures i' <= |nodes'| && next == (if i' < |nodes'| then nodes'[i'] else null)
    ensures |nodes'| - i' < |nodes| - i + (if ok then 0 else 1)
    ensures if ok then Progress(TokensOf(nodes'), i') == old(Progress(TokensOf(nodes), i))
         else old(Progress(TokensOf(nodes), i)).None?
  {
    hide MergePass, MergeTokens, Progress;
    ghost var ts := TokensOf(nodes);
    ok, next, newlast, nodes', i' := true, t, last, nodes, i;
    assert t.next == if i + 1 < |nodes| then nodes[i + 1] else null;
    if t.next != null && IsMerge(t.next.token) && t.next.next != null {
      var t2 := t.next.next;
      assert t.next == nodes[i + 1] && t2 == nodes[i + 2];
      var merged := MergeTokens(t.token, t2.token);
      if merged.None? {
        MergeFails(ts, i);
        ok := false;
        return;
      }
      if t2 == last { newlast := t; }
      nodes' := MergeAt(t, merged.value, nodes, i);
      Shortened(nodes, i, last, repr);
      ShortenedProgress(ts, TokensOf(nodes'), i, merged.value);
    } else {
      MergePassSkips(ts, i);
      i', next := i + 1, t.next;
    }
  }

  /** The ## pass over a list, in place. The list keeps its first node, and the
      node returned is the last one, with nothing behind it. */
  method MergeList(first: TokenNode, last: TokenNode, ghost nodes: seq<TokenNode>, ghost repr: set<TokenNode>)
      returns (ok: bool, newlast: TokenNode, ghost nodes': seq<TokenNode>)
    requires nodes != [] && IsList(nodes, null) && nodes[0] == first && nodes[|nodes| - 1] == last
    requires forall k :: 0 <= k < |nodes| ==> nodes[k] in repr
    modifies repr
    ensures ok <==> old(MergePass(TokensOf(nodes))).Some?
    ensures ok ==> nodes' != [] && nodes'[0] == first && nodes'[|nodes'| - 1] == newlast && newlast.next == null
    ensures ok ==> IsList(nodes', null) && forall k :: 0 <= k < |nodes'| ==> nodes'[k] in repr
    ensures ok ==> old(MergePass(TokensOf(nodes))) == Some(TokensOf(nodes'))
  {
    hide MergePass, Progress, TokensOf;
    newlast, nodes' := last, nodes;
    var t: TokenNode? := first;
    ghost var i: nat := 0;
    MergePassWhole(TokensOf(nodes));
    ok := true;
    while t != null
      invariant ok && nodes' != [] && nodes'[0] == first && nodes'[|nodes'| - 1] == newlast && IsList(nodes', null)
      invariant forall k :: 0 <= k < |nodes'| ==> nodes'[k] in repr
      invariant i <= |nodes'| && t == if i < |nodes'| then nodes'[i] else null
      invariant Progress(TokensOf(nodes'), i) == old(MergePass(TokensOf(nodes)))
      decreases |nodes'| - i
    {
      ok, t, newlast, nodes', i := MergeStep(t, newlast, nodes', i, repr);
      if !ok { return; }
    }
    MergePassDone(TokensOf(nodes'));
  }

  lemma MergePassWhole(ts: seq<Token>)
    ensures Progress(ts, 0) == MergePass(ts)
  {
    assert ts[0..] == ts && ts[..0] == [];
    assert MergePass(ts).Some? ==> [] + MergePass(ts).value == MergePass(ts).value;
  }

  lemma MergePassDone(ts: seq<Token>)
    ensures Progress(ts, |ts|) == Some(ts)
  {
    assert ts[|ts|..] == [] && ts[..|ts|] == ts && ts + [] == ts;
  }

  lemma MergePassMerges(ts: seq<Token>, i: nat)
    requires i + 2 < |ts| && IsMerge(ts[i + 1])
    ensures MergePass(ts[i..]) == match MergeTokens(ts[i], ts[i + 2])
                                  case None => None
                                  case Some(t) => MergePass([t] + ts[i + 3..])
  {
    assert ts[i..][0] == ts[i] && ts[i..][1] == ts[i + 1] && ts[i..][2] == ts[i + 2] && ts[i..][3..] == ts[i + 3..];
  }

  lemma MergePassSkips(ts: seq<Token>, i: nat)
    requires i < |ts| && !(|ts| >= i + 3 && IsMerge(ts[i + 1]))
    ensures Progress(ts, i) == Progress(ts, i + 1)
  {
    assert ts[i..][1..] == ts[i + 1..] && ts[..i + 1] == ts[..i] + [ts[i]];
    match MergePass(ts[i + 1..])
    case None =>
    case Some(rest) => assert ts[..i] + ([ts[i]] + rest) == ts[..i + 1] + rest;
  }

  lemma MergeFails(ts: seq<Token>, i: nat)
    requires i + 2 < |ts| && IsMerge(ts[i + 1]) && MergeTokens(ts[i], ts[i + 2]).None?
    ensures Progress(ts, i).None?
  {
    hide MergePass, MergeTokens;
    MergePassMerges(ts, i);
  }

  /** PC_ExpandDefineIntoSource: the merged list goes in front of the tokens to
      read first, none of which is lost. */
  method SpliceList(first: TokenNode, last: TokenNode, pending: TokenNode?, ghost nodes: seq<TokenNode>,
          ghost queue: seq<TokenNode>)
    requires nodes != [] && IsList(nodes, null) && nodes[0] == first && nodes[|nodes| - 1] == last
    requires IsList(queue, null) && pending == (if queue == [] then null else queue[0])
    requires forall i, j :: 0 <= i < |nodes| && 0 <= j < |queue| ==> nodes[i] != queue[j]
    modifies last
    ensures IsList(nodes + queue, null) && TokensOf(nodes + queue) == old(TokensOf(nodes)) + old(TokensOf(queue))
  {
    ghost var all := nodes + queue;
    assert forall i :: 0 <= i < |all| ==> all[i] == if i < |nodes| then nodes[i] else queue[i - |nodes|];
    last.next := pending;
    assert forall i :: 0 <= i < |nodes| - 1 ==> nodes[i].next == nodes[i + 1];
    assert forall i :: 0 <= i < |queue| ==> queue[i].next == if i + 1 < |queue| then queue[i + 1] else null;
  }
}
