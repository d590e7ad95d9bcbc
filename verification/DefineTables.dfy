/** The table of defines: 1024 hash chains that behave like a map from names to
    defines (src/botlib/l_precomp.c:492-541, 1094-1170, 1198-1230, 1540-1554).
    The chains are right for any hash function; NameHash is the source's. */
module DefineTables {
  import opened Options
  import opened Bits
  import opened Macros

  const DEFINEHASHSIZE := 1024

  // ------------------------------------------------------- the hash function

  /** The sum of the characters from position `i` on, weighted by position. */
  function WeightedSum(name: string, i: nat): nat
    requires i <= |name|
    decreases |name| - i
  {
    if i == |name| then 0 else name[i] as nat * (119 + i) + WeightedSum(name, i + 1)
  }

  function NameHash(name: string): int {
    var h := WeightedSum(name, 0);
    BitXor(BitXor(h, ShiftRight(h, 10)), ShiftRight(h, 20))
  }

  // ------------------------------------------------------------- the chains

  type Hash = string -> int

  function Bucket(hash: Hash, name: string): (h: nat)
    ensures h < DEFINEHASHSIZE
  {
    hash(name) % DEFINEHASHSIZE
  }

  /** The first define of that name in a chain. */
  function FindInChain(chain: seq<Define>, name: string): (r: Option<Define>)
    ensures r.Some? ==> r.value in chain && r.value.name == name
    ensures r.None? ==> forall d <- chain :: d.name != name
  {
    if chain == [] then None else if chain[0].name == name then Some(chain[0]) else FindInChain(chain[1..], name)
  }

  /** The chain without the first define of that name. */
  function DropFromChain(chain: seq<Define>, name: string): seq<Define> {
    if chain == [] then [] else if chain[0].name == name then chain[1..]
        else [chain[0]] + DropFromChain(chain[1..], name)
  }

  type Chains = chains: seq<seq<Define>> | |chains| == DEFINEHASHSIZE witness seq(DEFINEHASHSIZE, _ => [])

  function Find(hash: Hash, chains: Chains, name: string): Option<Define> {
    FindInChain(chains[Bucket(hash, name)], name)
  }

  function Insert(hash: Hash, chains: Chains, d: Define): Chains {
    var h := Bucket(hash, d.name);
    chains[h := [d] + chains[h]]
  }

  /** What #undef does: a fixed define stays. */
  function Delete(hash: Hash, chains: Chains, name: string): Chains {
    var h := Bucket(hash, name);
    var found := FindInChain(chains[h], name);
    if found.None? || found.value.fixed then chains else chains[h := DropFromChain(chains[h], name)]
  }

  /** In any table, also one that holds the name already, the define added last is the
      one found, and its #undef gives back the table before it, with an older define of
      that name. */
  lemma DeleteUndoesInsert(hash: Hash, chains: Chains, d: Define)
    ensures Find(hash, Insert(hash, chains, d), d.name) == Some(d)
    ensures !d.fixed ==> Delete(hash, Insert(hash, chains, d), d.name) == chains
    ensures d.fixed ==> Delete(hash, Insert(hash, chains, d), d.name) == Insert(hash, chains, d)
  {
    var h := Bucket(hash, d.name);
    assert ([d] + chains[h])[1..] == chains[h] && chains[h := [d] + chains[h]][h := chains[h]] == chains;
  }

  // --------------------------------------------------------------- the map

  ghost predicate DistinctInChain(chain: seq<Define>) {
    forall i, j :: 0 <= i < j < |chain| ==> chain[i].name != chain[j].name
  }

  ghost predicate GoodChain(hash: Hash, chain: seq<Define>, h: nat) {
    (forall i :: 0 <= i < |chain| ==> Bucket(hash, chain[i].name) == h) && DistinctInChain(chain)
  }

  /** The table holds the defines of the map: each in the chain of its hash, none
      of them twice, and found there. */
  ghost predicate Represents(hash: Hash, chains: Chains, defs: map<string, Define>) {
    && (forall h :: 0 <= h < DEFINEHASHSIZE ==> GoodChain(hash, chains[h], h))
    && (forall name <- defs :: defs[name].name == name)
    && (forall name :: Find(hash, chains, name) == if name in defs then Some(defs[name]) else None)
  }

  function DeleteFromMap(defs: map<string, Define>, name: string): map<string, Define> {
    if name in defs && !defs[name].fixed then defs - {name} else defs
  }

  lemma {:induction false} DropKeeps(hash: Hash, chain: seq<Define>, name: string, h: nat)
    requires GoodChain(hash, chain, h)
    ensures forall d <- DropFromChain(chain, name) :: d in chain
    ensures GoodChain(hash, DropFromChain(chain, name), h)
    decreases chain
  {
    if chain != [] && chain[0].name != name {
      var rest := DropFromChain(chain[1..], name);
      assert chain == [chain[0]] + chain[1..];
      DropKeeps(hash, chain[1..], name, h);
      forall j | 0 <= j < |rest| ensures rest[j].name != chain[0].name {
        assert rest[j] in chain[1..];
        var k :| 0 <= k < |chain[1..]| && chain[1..][k] == rest[j];
        assert chain[k + 1] == rest[j];
      }
    }
  }

  lemma {:induction false} FindAfterDrop(chain: seq<Define>, name: string, other: string)
    requires DistinctInChain(chain)
    ensures FindInChain(DropFromChain(chain, name), other) == if other == name then None else FindInChain(chain, other)
    decreases chain
  {
    if chain != [] {
      if chain[0].name == name {
        assert forall i :: 0 <= i < |chain[1..]| ==> chain[1..][i] == chain[i + 1];
        assert forall d <- chain[1..] :: d.name != name;
      } else {
        FindAfterDrop(chain[1..], name, other);
      }
    }
  }

  lemma InsertRepresents(hash: Hash, chains: Chains, defs: map<string, Define>, d: Define)
    requires Represents(hash, chains, defs) && d.name !in defs
    ensures Represents(hash, Insert(hash, chains, d), defs[d.name := d])
  {
    hide FindInChain;
    var (h, chains', defs') := (Bucket(hash, d.name), Insert(hash, chains, d), defs[d.name := d]);
    GoodChainGrows(hash, chains, d);
    forall name ensures Find(hash, chains', name) == if name in defs' then Some(defs'[name]) else None {
      assert Find(hash, chains, name) == if name in defs then Some(defs[name]) else None;
      FindInLonger(chains[h], d, name);
    }
  }

  lemma FindInLonger(chain: seq<Define>, d: Define, name: string)
    ensures FindInChain([d] + chain, name) == if d.name == name then Some(d) else FindInChain(chain, name)
  {
    assert ([d] + chain)[1..] == chain;
  }

  lemma GoodChainGrows(hash: Hash, chains: Chains, d: Define)
    requires forall h :: 0 <= h < DEFINEHASHSIZE ==> GoodChain(hash, chains[h], h)
    requires Find(hash, chains, d.name).None?
    ensures forall h :: 0 <= h < DEFINEHASHSIZE ==> GoodChain(hash, Insert(hash, chains, d)[h], h)
  {
    var h := Bucket(hash, d.name);
    assert GoodChain(hash, chains[h], h);
    forall i | 0 <= i < |chains[h]| ensures chains[h][i].name != d.name { assert chains[h][i] in chains[h]; }
    assert GoodChain(hash, [d] + chains[h], h);
  }

  lemma DeleteRepresents(hash: Hash, chains: Chains, defs: map<string, Define>, name: string)
    requires Represents(hash, chains, defs)
    ensures Represents(hash, Delete(hash, chains, name), DeleteFromMap(defs, name))
  {
    hide FindInChain, DropFromChain, DistinctInChain;
    var (h, chains', defs') := (Bucket(hash, name), Delete(hash, chains, name), DeleteFromMap(defs, name));
    assert Find(hash, chains, name) == if name in defs then Some(defs[name]) else None;
    if name in defs && !defs[name].fixed {
      assert GoodChain(hash, chains[h], h);
      DropKeeps(hash, chains[h], name, h);
      forall other ensures Find(hash, chains', other) == if other in defs' then Some(defs'[other]) else None {
        FindAfterDrop(chains[h], name, other);
        assert Find(hash, chains, other) == if other in defs then Some(defs[other]) else None;
      }
    }
  }

  // ------------------------------------------------------ whole histories

  /** What the directives do to the table: a redefinition is an #undef followed by
      an insertion. */
  datatype Operation = DefineIt(d: Define) | UndefIt(name: string)

  function Apply(hash: Hash, chains: Chains, op: Operation): Chains {
    match op
    case UndefIt(name) => Delete(hash, chains, name)
    case DefineIt(d) =>
      match Find(hash, chains, d.name)
      case None => Insert(hash, chains, d)
      case Some(e) => if e.fixed then chains else Insert(hash, Delete(hash, chains, d.name), d)
  }

  function ApplyToMap(defs: map<string, Define>, op: Operation): map<string, Define> {
    match op
    case UndefIt(name) => DeleteFromMap(defs, name)
    case DefineIt(d) => if d.name in defs && defs[d.name].fixed then defs else defs[d.name := d]
  }

  function ApplyAll(hash: Hash, chains: Chains, ops: seq<Operation>): Chains
    decreases ops
  {
    if ops == [] then chains else ApplyAll(hash, Apply(hash, chains, ops[0]), ops[1..])
  }

  function ApplyAllToMap(defs: map<string, Define>, ops: seq<Operation>): map<string, Define>
    decreases ops
  {
    if ops == [] then defs else ApplyAllToMap(ApplyToMap(defs, ops[0]), ops[1..])
  }

  lemma ApplyRepresents(hash: Hash, chains: Chains, defs: map<string, Define>, op: Operation)
    requires Represents(hash, chains, defs)
    ensures Represents(hash, Apply(hash, chains, op), ApplyToMap(defs, op))
  {
    hide Delete, Insert, GoodChain;
    match op
    case UndefIt(name) => DeleteRepresents(hash, chains, defs, name);
    case DefineIt(d) =>
      assert Find(hash, chains, d.name) == if d.name in defs then Some(defs[d.name]) else None;
      if d.name !in defs {
        InsertRepresents(hash, chains, defs, d);
      } else if !defs[d.name].fixed {
        DeleteRepresents(hash, chains, defs, d.name);
        InsertRepresents(hash, Delete(hash, chains, d.name), defs - {d.name}, d);
        assert (defs - {d.name})[d.name := d] == defs[d.name := d];
      }
  }

  /** After any sequence of #define and #undef the table still holds exactly the
      defines of a map updated by the same operations. */
  lemma {:induction false} HistoryRepresents(hash: Hash, chains: Chains, defs: map<string, Define>, ops: seq<Operation>)
    requires Represents(hash, chains, defs)
    ensures Represents(hash, ApplyAll(hash, chains, ops), ApplyAllToMap(defs, ops))
    decreases ops
  {
    hide Represents;
    if ops != [] {
      ApplyRepresents(hash, chains, defs, ops[0]);
      HistoryRepresents(hash, Apply(hash, chains, ops[0]), ApplyToMap(defs, ops[0]), ops[1..]);
    }
  }

  /** Over the whole table each name occurs in one node at most. */
  lemma NamesAreUnique(hash: Hash, chains: Chains, defs: map<string, Define>, h: nat, i: nat, k: nat, j: nat)
    requires Represents(hash, chains, defs)
    requires h < DEFINEHASHSIZE && k < DEFINEHASHSIZE && i < |chains[h]| && j < |chains[k]|
    ensures chains[h][i].name == chains[k][j].name ==> h == k && i == j
  {
    assert GoodChain(hash, chains[h], h) && GoodChain(hash, chains[k], k);
  }

  // ------------------------------------------------------------- the table

  lemma {:induction false} FirstInChain(chain: seq<Define>, name: string, i: nat)
    requires i <= |chain| && forall j :: 0 <= j < i ==> chain[j].name != name
    ensures FindInChain(chain, name) == if i < |chain| && chain[i].name == name then Some(chain[i])
         else FindInChain(chain[i..], name)
    decreases i
  {
    if i == 0 {
      assert chain[0..] == chain;
    } else {
      FirstInChain(chain[1..], name, i - 1);
      assert chain[1..][i - 1..] == chain[i..];
    }
  }

  lemma {:induction false} FirstDropped(chain: seq<Define>, name: string, i: nat)
    requires i < |chain| && chain[i].name == name && forall j :: 0 <= j < i ==> chain[j].name != name
    ensures DropFromChain(chain, name) == chain[..i] + chain[i + 1..]
    decreases i
  {
    if i > 0 {
      FirstDropped(chain[1..], name, i - 1);
      assert chain[1..][i..] == chain[i + 1..] && [chain[0]] + chain[1..][..i - 1] == chain[..i];
    }
  }

  function ReplaceAt(chain: seq<Define>, i: nat, d: Define): seq<Define>
    requires i < |chain|
  {
    chain[i := d]
  }

  lemma {:induction false} FindAfterReplace(chain: seq<Define>, i: nat, d: Define, other: string)
    requires i < |chain| && chain[i].name == d.name && DistinctInChain(chain)
    ensures FindInChain(ReplaceAt(chain, i, d), other) == if other == d.name then Some(d) else FindInChain(chain, other)
    decreases chain
  {
    var chain' := ReplaceAt(chain, i, d);
    if i == 0 {
      assert chain'[1..] == chain[1..];
    } else {
      assert chain'[1..] == ReplaceAt(chain[1..], i - 1, d) && chain'[0] == chain[0];
      FindAfterReplace(chain[1..], i - 1, d, other);
    }
  }

  lemma ReplaceRepresents(hash: Hash, chains: Chains, defs: map<string, Define>, i: nat, d: Define)
    requires Represents(hash, chains, defs)
    requires i < |chains[Bucket(hash, d.name)]| && chains[Bucket(hash, d.name)][i].name == d.name
    ensures var h := Bucket(hash, d.name);
            Represents(hash, chains[h := ReplaceAt(chains[h], i, d)], defs[d.name := d])
  {
    hide FindInChain;
    var h := Bucket(hash, d.name);
    var (chains', defs') := (chains[h := ReplaceAt(chains[h], i, d)], defs[d.name := d]);
    assert GoodChain(hash, chains[h], h);
    forall other ensures Find(hash, chains', other) == if other in defs' then Some(defs'[other]) else None {
      FindAfterReplace(chains[h], i, d, other);
      assert Find(hash, chains, other) == if other in defs then Some(defs[other]) else None;
    }
  }

  lemma EmptyRepresents(hash: Hash, chains: Chains)
    requires forall h :: 0 <= h < DEFINEHASHSIZE ==> chains[h] == []
    ensures Represents(hash, chains, map[])
  {
  }

  class DefineTable {
    const chains: array<seq<Define>>
    /** The map the table stands for. */
    ghost var defs: map<string, Define>

    ghost predicate Valid()
      reads this, chains
    {
      chains.Length == DEFINEHASHSIZE && Represents(NameHash, chains[..], defs)
    }

    constructor ()
      ensures Valid() && fresh(chains) && defs == map[]
    {
      var empty: array<seq<Define>> := new seq<Define>[DEFINEHASHSIZE](_ => []);
      chains := empty;
      defs := map[];
      new;
      EmptyRepresents(NameHash, chains[..]);
    }

    /** PC_NameHash. */
    static method HashOf(name: string) returns (h: nat)
      ensures h == Bucket(NameHash, name)
    {
      hide BitXor, ShiftRight;
      var hash, i := 0, 0;
      while i < |name|
        invariant i <= |name| && hash + WeightedSum(name, i) == WeightedSum(name, 0)
      {
        hash := hash + name[i] as nat * (119 + i);
        i := i + 1;
      }
      h := BitXor(BitXor(hash, ShiftRight(hash, 10)), ShiftRight(hash, 20)) % DEFINEHASHSIZE;
    }

    /** PC_FindHashedDefine: where the define of that name is, if it is there. */
    method Locate(name: string) returns (h: nat, i: nat)
      requires Valid()
      ensures h == Bucket(NameHash, name) && i <= |chains[h]|
      ensures forall j :: 0 <= j < i ==> chains[h][j].name != name
      ensures i < |chains[h]| <==> name in defs
      ensures i < |chains[h]| ==> chains[h][i].name == name && chains[h][i] == defs[name]
    {
      hide GoodChain, NameHash;
      h := HashOf(name);
      i := 0;
      while i < |chains[h]| && chains[h][i].name != name
        invariant i <= |chains[h]| && forall j :: 0 <= j < i ==> chains[h][j].name != name
      {
        i := i + 1;
      }
      FirstInChain(chains[h], name, i);
      assert Find(NameHash, chains[..], name) == if name in defs then Some(defs[name]) else None;
    }

    method FindHashedDefine(name: string) returns (d: Option<Define>)
      requires Valid()
      ensures d == if name in defs then Some(defs[name]) else None
    {
      hide Represents;
      var h, i := Locate(name);
      d := if i < |chains[h]| then Some(chains[h][i]) else None;
    }

    /** PC_AddDefineToHash. */
    method Add(d: Define)
      requires Valid() && d.name !in defs
      modifies this, chains
      ensures Valid() && defs == old(defs)[d.name := d]
    {
      hide NameHash, Represents;
      InsertRepresents(NameHash, chains[..], defs, d);
      var h := HashOf(d.name);
      chains[h] := [d] + chains[h];
      defs := defs[d.name := d];
      assert chains[..] == Insert(NameHash, old(chains[..]), d);
    }

    /** The unlinking loop of PC_Directive_undef. */
    method Remove(name: string)
      requires Valid()
      modifies this, chains
      ensures Valid() && defs == DeleteFromMap(old(defs), name)
    {
      hide NameHash, Represents, FindInChain, DropFromChain;
      var h, i := Locate(name);
      DeleteRepresents(NameHash, chains[..], defs, name);
      FirstInChain(chains[h], name, i);
      if i < |chains[h]| { FirstDropped(chains[h], name, i); }
      NothingBehind(chains[h]);
      if i < |chains[h]| && !chains[h][i].fixed {
        chains[h] := chains[h][..i] + chains[h][i + 1..];
      }
      assert chains[..] == Delete(NameHash, old(chains[..]), name);
      defs := DeleteFromMap(defs, name);
    }

    /** A define that is already in the table changes in place. */
    method Update(d: Define)
      requires Valid() && d.name in defs
      modifies this, chains
      ensures Valid() && defs == old(defs)[d.name := d]
    {
      hide NameHash, Represents;
      var h, i := Locate(d.name);
      ReplaceRepresents(NameHash, chains[..], defs, i, d);
      chains[h] := chains[h][i := d];
      defs := defs[d.name := d];
      assert chains[..] == old(chains[..])[h := ReplaceAt(old(chains[..])[h], i, d)];
    }
  }

  lemma NothingBehind(chain: seq<Define>)
    ensures chain[|chain|..] == [] && forall name :: FindInChain([], name) == None
  {
  }
}
