/** The punctuation table of the lexer: 256 linked lists, longer punctuations
    first (src/botlib/l_script.c:130-178, 872-906). */
module Punctuations {

  const TABLE_SIZE := 256

  class Punctuation {
    const p: string
    const n: int
    var next: Punctuation?

    constructor (p: string, n: int)
      ensures this.p == p && this.n == n && next == null
    {
      this.p, this.n, this.next := p, n, null;
    }
  }

  // ------------------------------------------------------------- the buckets

  /** Into a list, in front of the first shorter punctuation. */
  function Place(x: Punctuation, nodes: seq<Punctuation>): seq<Punctuation> {
    if nodes == [] then [x]
    else if |nodes[0].p| < |x.p| then [x] + nodes
    else [nodes[0]] + Place(x, nodes[1..])
  }

  predicate Usable(ps: seq<Punctuation>) {
    forall i :: 0 <= i < |ps| ==> ps[i].p != "" && ps[i].p[0] as int < TABLE_SIZE
  }

  predicate StartsAt(x: Punctuation, c: int) { x.p != "" && x.p[0] as int == c }

  /** The list of those that start with the character. */
  function Bucket(ps: seq<Punctuation>, c: int): seq<Punctuation> {
    if ps == [] then []
    else
      var (rest, x) := (Bucket(ps[..|ps| - 1], c), ps[|ps| - 1]);
      if StartsAt(x, c) then Place(x, rest) else rest
  }

  ghost predicate LongestFirst(nodes: seq<Punctuation>) {
    forall i, j :: 0 <= i < j < |nodes| ==> |nodes[i].p| >= |nodes[j].p|
  }

  lemma LongestInFront(x: Punctuation, nodes: seq<Punctuation>)
    requires LongestFirst(nodes) && forall j :: 0 <= j < |nodes| ==> |nodes[j].p| <= |x.p|
    ensures LongestFirst([x] + nodes)
  {
  }

  lemma {:induction false} PlaceKeeps(x: Punctuation, nodes: seq<Punctuation>)
    ensures multiset(Place(x, nodes)) == multiset{x} + multiset(nodes)
    decreases nodes
  {
    if nodes != [] {
      PlaceKeeps(x, nodes[1..]);
      assert nodes == [nodes[0]] + nodes[1..];
    }
  }

  lemma PlaceMember(x: Punctuation, nodes: seq<Punctuation>, y: Punctuation)
    requires y in Place(x, nodes)
    ensures y == x || y in nodes
  {
    hide Place;
    PlaceKeeps(x, nodes);
    assert y in multiset(Place(x, nodes));
  }

  lemma {:induction false} PlaceOrders(x: Punctuation, nodes: seq<Punctuation>)
    requires LongestFirst(nodes)
    ensures LongestFirst(Place(x, nodes)) && multiset(Place(x, nodes)) == multiset{x} + multiset(nodes)
    decreases nodes
  {
    PlaceKeeps(x, nodes);
    if nodes == [] {
    } else if |nodes[0].p| < |x.p| {
      LongestInFront(x, nodes);
    } else {
      PlaceOrders(x, nodes[1..]);
      forall y | y in Place(x, nodes[1..]) ensures |y.p| <= |nodes[0].p| { PlaceMember(x, nodes[1..], y); }
      LongestInFront(nodes[0], Place(x, nodes[1..]));
    }
  }

  /** A bucket holds exactly the punctuations with its first character, each as
      often as the list does, longer ones first. */
  lemma {:induction false} BucketHolds(ps: seq<Punctuation>, c: int)
    ensures forall x: Punctuation :: multiset(Bucket(ps, c))[x] == if StartsAt(x, c) then multiset(ps)[x] else 0
    ensures LongestFirst(Bucket(ps, c))
    decreases ps
  {
    if ps != [] {
      var (front, x) := (ps[..|ps| - 1], ps[|ps| - 1]);
      BucketHolds(front, c);
      PlaceOrders(x, Bucket(front, c));
      assert ps == front + [x];
    }
  }

  // ------------------------------------------------------------ linked lists

  ghost predicate Chain(head: Punctuation?, nodes: seq<Punctuation>)
    reads set x | x in nodes
  {
    && head == NodeAt(nodes, 0)
    && forall i :: 0 <= i < |nodes| ==> LinkedOn(nodes, i)
  }

  ghost function NodeAt(nodes: seq<Punctuation>, i: nat): Punctuation? {
    if i < |nodes| then nodes[i] else null
  }

  ghost predicate LinkedOn(nodes: seq<Punctuation>, i: nat)
    requires i < |nodes|
    reads nodes[i]
  {
    nodes[i].next == NodeAt(nodes, i + 1)
  }

  lemma {:induction false} PlaceAt(x: Punctuation, nodes: seq<Punctuation>, k: nat)
    requires k <= |nodes| && forall j :: 0 <= j < k ==> !(|nodes[j].p| < |x.p|)
    requires k < |nodes| ==> |nodes[k].p| < |x.p|
    ensures Place(x, nodes) == nodes[..k] + [x] + nodes[k..]
    decreases k
  {
    if k > 0 {
      PlaceAt(x, nodes[1..], k - 1);
      assert nodes[1..][..k - 1] == nodes[1..k];
    }
  }

  lemma BucketMembers(ps: seq<Punctuation>, c: int)
    ensures forall x <- Bucket(ps, c) :: x in ps && StartsAt(x, c)
  {
    BucketHolds(ps, c);
    forall x | x in Bucket(ps, c) ensures x in ps && StartsAt(x, c) {
      hide Bucket;
      assert multiset(Bucket(ps, c))[x] == if StartsAt(x, c) then multiset(ps)[x] else 0;
    }
  }

  /** Puts one punctuation into its list. */
  method Insert(table: array<Punctuation?>, newp: Punctuation, ghost nodes: seq<Punctuation>)
    requires table.Length == TABLE_SIZE && newp.p != "" && newp.p[0] as int < TABLE_SIZE
    requires Chain(table[newp.p[0] as int], nodes) && newp !in nodes
    requires forall i, j :: 0 <= i < j < |nodes| ==> nodes[i] != nodes[j]
    modifies table, newp, set x | x in nodes
    ensures Chain(table[newp.p[0] as int], Place(newp, nodes))
    ensures forall c :: 0 <= c < TABLE_SIZE && c != newp.p[0] as int ==> table[c] == old(table[c])
  {
    var c := newp.p[0] as int;
    var lastp: Punctuation? := null;
    var p := table[c];
    ghost var k := 0;
    while p != null && |p.p| >= |newp.p|
      invariant k <= |nodes| && p == NodeAt(nodes, k)
      invariant lastp == if k == 0 then null else nodes[k - 1]
      invariant forall j :: 0 <= j < k ==> |nodes[j].p| >= |newp.p|
      decreases |nodes| - k
    {
      assert LinkedOn(nodes, k);
      lastp := p;
      p := p.next;
      k := k + 1;
    }
    PlaceAt(newp, nodes, k);
    newp.next := p;
    if lastp != null {
      assert lastp in nodes;
      lastp.next := newp;
    } else {
      table[c] := newp;
    }
    ghost var placed := nodes[..k] + [newp] + nodes[k..];
    forall i | 0 <= i < |placed| ensures LinkedOn(placed, i) {
      if i < k - 1 {
        assert old(LinkedOn(nodes, i));
      } else if i > k {
        assert placed[i] == nodes[i - 1] && old(LinkedOn(nodes, i - 1));
      }
    }
  }

  /** PS_CreatePunctuationTable: whatever the next fields held before, each list of
      the table is then the bucket of its character. */
  method CreatePunctuationTable(table: array<Punctuation?>, punctuations: seq<Punctuation>)
    requires table.Length == TABLE_SIZE && Usable(punctuations)
    requires forall i, j :: 0 <= i < j < |punctuations| ==> punctuations[i] != punctuations[j]
    modifies table, set x | x in punctuations
    ensures forall c :: 0 <= c < TABLE_SIZE ==> Chain(table[c], Bucket(punctuations, c))
  {
    var i := 0;
    while i < TABLE_SIZE
      invariant 0 <= i <= TABLE_SIZE && forall c :: 0 <= c < i ==> table[c] == null
    {
      table[i] := null;
      i := i + 1;
    }
    i := 0;
    while i < |punctuations|
      invariant 0 <= i <= |punctuations|
      invariant forall c :: 0 <= c < TABLE_SIZE ==> Chain(table[c], Bucket(punctuations[..i], c))
    {
      var newp := punctuations[i];
      ghost var (done, h) := (punctuations[..i], newp.p[0] as int);
      ghost var nodes := Bucket(done, h);
      InsertReady(done, newp, h);
      BucketMembers(done, h);
      assert forall x <- nodes :: x in done && x in punctuations;
      hide Bucket, Place, Chain;
      label before:
      Insert(table, newp, nodes);
      assert punctuations[..i + 1][..i] == done;
      forall c | 0 <= c < TABLE_SIZE ensures Chain(table[c], Bucket(punctuations[..i + 1], c)) {
        if c != h {
          assert old@before(Chain(table[c], Bucket(done, c)));
          OtherBucket(done, newp, h, c);
        }
      }
      i := i + 1;
    }
    assert punctuations[..i] == punctuations;
  }

  lemma InsertReady(done: seq<Punctuation>, newp: Punctuation, c: int)
    requires newp !in done && forall i, j :: 0 <= i < j < |done| ==> done[i] != done[j]
    ensures newp !in Bucket(done, c)
    ensures forall i, j :: 0 <= i < j < |Bucket(done, c)| ==> Bucket(done, c)[i] != Bucket(done, c)[j]
  {
    BucketMembers(done, c);
    BucketHolds(done, c);
    Distinct(done);
    var nodes := Bucket(done, c);
    forall i, j | 0 <= i < j < |nodes| ensures nodes[i] != nodes[j] {
      hide Bucket;
      var x := nodes[i];
      assert multiset(nodes)[x] == if StartsAt(x, c) then multiset(done)[x] else 0;
      assert multiset(done)[x] <= 1;
      if nodes[i] == nodes[j] { TwiceIn(nodes, i, j); }
    }
  }

  lemma TwiceIn<T>(s: seq<T>, i: nat, j: nat)
    requires i < j < |s| && s[i] == s[j]
    ensures multiset(s)[s[i]] >= 2
  {
    assert s == s[..i] + [s[i]] + s[i + 1..j] + [s[j]] + s[j + 1..];
  }

  lemma {:induction false} Distinct<T>(s: seq<T>)
    requires forall i, j :: 0 <= i < j < |s| ==> s[i] != s[j]
    ensures forall x :: multiset(s)[x] <= 1
    decreases s
  {
    if s != [] {
      Distinct(s[1..]);
      assert s == [s[0]] + s[1..];
      assert s[0] !in s[1..] by {
        forall k | 0 <= k < |s[1..]| ensures s[1..][k] != s[0] { assert s[1..][k] == s[k + 1]; }
      }
    }
  }

  lemma OtherBucket(done: seq<Punctuation>, newp: Punctuation, h: int, c: int)
    requires StartsAt(newp, h) && h != c
    ensures Bucket(done + [newp], c) == Bucket(done, c)
    ensures newp !in Bucket(done, c) && forall x <- Bucket(done, c) :: x !in Bucket(done, h)
  {
    BucketMembers(done, c);
    BucketMembers(done, h);
    assert (done + [newp])[..|done|] == done;
  }
}
