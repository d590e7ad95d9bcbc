/** The debug block manager: every block the bot library holds is on one doubly
    linked list, beside three running totals (src/botlib/l_memory.c:40-332, the
    MEMORYMANEGER build). */
module Memory {
  /** sizeof(memoryblock_t). */
  const HEADER: nat := 40

  datatype BlockId = MemId | HunkId | OtherId

  /** A block with its header; `size` covers both. */
  class MemoryBlock {
    const id: BlockId
    const ptr: int
    const size: nat
    var prev: MemoryBlock?
    var next: MemoryBlock?

    constructor (id: BlockId, ptr: int, size: nat)
      ensures this.id == id && this.ptr == ptr && this.size == size && prev == null && next == null
    {
      this.id, this.ptr, this.size := id, ptr, size;
      prev, next := null, null;
    }
  }

  /** A C pointer: its address, and the header that lies before it. */
  datatype Pointer = Pointer(header: MemoryBlock?, address: int)

  function Sizes(blocks: seq<MemoryBlock>): nat {
    if blocks == [] then 0 else blocks[0].size + Sizes(blocks[1..])
  }

  /** The blocks that came from the zone, in order. */
  function FromZone(blocks: seq<MemoryBlock>): seq<MemoryBlock> {
    if blocks == [] then [] else (if blocks[0].id == MemId then [blocks[0]] else []) + FromZone(blocks[1..])
  }

  lemma {:induction false} SizesConcat(a: seq<MemoryBlock>, b: seq<MemoryBlock>)
    ensures Sizes(a + b) == Sizes(a) + Sizes(b)
    decreases a
  {
    if a == [] {
      assert a + b == b;
    } else {
      assert (a + b)[0] == a[0] && (a + b)[1..] == a[1..] + b;
      SizesConcat(a[1..], b);
    }
  }

  lemma OneCounts(block: MemoryBlock)
    ensures Sizes([block]) == block.size && FromZone([block]) == if block.id == MemId then [block] else []
  {
    assert [block][1..] == [];
    NothingCounts();
  }

  lemma NothingCounts()
    ensures Sizes([]) == 0 && FromZone([]) == []
  {
  }

  lemma SizesWithout(blocks: seq<MemoryBlock>, i: nat)
    requires i < |blocks|
    ensures Sizes(blocks) == blocks[i].size + Sizes(blocks[..i] + blocks[i + 1..])
  {
    hide Sizes;
    var (a, b, c) := (blocks[..i], [blocks[i]], blocks[i + 1..]);
    assert blocks == a + (b + c);
    SizesConcat(a, b + c);
    SizesConcat(b, c);
    SizesConcat(a, c);
    OneCounts(blocks[i]);
  }

  /** Exactly the live blocks that are not on the hunk, each as often. */
  lemma {:induction false} ZoneIsNotHunk(blocks: seq<MemoryBlock>)
    ensures forall b: MemoryBlock :: multiset(FromZone(blocks))[b] == if b.id == MemId then multiset(blocks)[b] else 0
    decreases blocks
  {
    if blocks != [] {
      ZoneIsNotHunk(blocks[1..]);
      assert blocks == [blocks[0]] + blocks[1..];
    }
  }

  /** The header before a pointer, if it is one the manager wrote. */
  function BlockFromPointer(p: Pointer): (block: MemoryBlock?)
    ensures block != null ==> block == p.header
    ensures block != null <==> p.header != null && p.header.id != OtherId && p.header.ptr == p.address
  {
    if p.header == null then null
    else if p.header.id == OtherId then null
    else if p.header.ptr != p.address then null
    else p.header
  }

  ghost function Blocks(blocks: seq<MemoryBlock>): set<MemoryBlock> { set b | b in blocks }

  /** The list from `head` on is exactly these blocks, linked both ways. */
  ghost predicate Linked(head: MemoryBlock?, blocks: seq<MemoryBlock>)
    reads Blocks(blocks)
  {
    && head == (if blocks == [] then null else blocks[0])
    && (forall i :: 0 <= i < |blocks| ==> Before(blocks, i))
    && (forall i :: 0 <= i < |blocks| ==> Behind(blocks, i))
    && (forall i, j :: 0 <= i < j < |blocks| ==> blocks[i] != blocks[j])
    && (forall i :: 0 <= i < |blocks| ==> blocks[i].id != OtherId)
  }

  ghost predicate Before(blocks: seq<MemoryBlock>, i: nat)
    requires i < |blocks|
    reads blocks[i]
  {
    blocks[i].prev == if i == 0 then null else blocks[i - 1]
  }

  ghost predicate Behind(blocks: seq<MemoryBlock>, i: nat)
    requires i < |blocks|
    reads blocks[i]
  {
    blocks[i].next == if i == |blocks| - 1 then null else blocks[i + 1]
  }

  class MemoryManager {
    var memory: MemoryBlock?
    var allocatedmemory: int
    var totalmemorysize: int
    var numblocks: int
    /** The blocks handed out and not freed, the latest first. */
    ghost var live: seq<MemoryBlock>
    /** What has been given back to the zone so far. */
    ghost var returned: seq<MemoryBlock>

    ghost predicate Counted()
      reads this
    {
      && numblocks == |live|
      && allocatedmemory == Sizes(live)
      && totalmemorysize == Sizes(live) + HEADER * |live|
    }

    ghost predicate Valid()
      reads this, Blocks(live)
    {
      Linked(memory, live) && Counted()
    }

    constructor ()
      ensures Valid() && live == [] && returned == []
    {
      memory, allocatedmemory, totalmemorysize, numblocks := null, 0, 0, 0;
      live, returned := [], [];
    }

    method LinkMemoryBlock(block: MemoryBlock)
      requires Linked(memory, live) && block !in live && block.id != OtherId
      modifies this`memory, this`live, block, Blocks(live)
      ensures Linked(memory, live) && live == [block] + old(live)
    {
      block.prev := null;
      block.next := memory;
      if memory != null {
        assert live[0] in live && Before(live, 0);
        memory.prev := block;
      }
      memory := block;
      ghost var was := live;
      live := [block] + live;
      assert Before(live, 0) && Behind(live, 0);
      forall k | 1 <= k < |live| ensures Before(live, k) && Behind(live, k) {
        assert live[k] == was[k - 1] && was[k - 1] in was && was[k - 1] != block;
        assert old(Before(was, k - 1) && Behind(was, k - 1));
      }
    }

    method UnlinkMemoryBlock(block: MemoryBlock, ghost i: nat)
      requires Linked(memory, live) && i < |live| && live[i] == block
      modifies this`memory, this`live, Blocks(live)
      ensures Linked(memory, live) && live == old(live)[..i] + old(live)[i + 1..]
    {
      ghost var was := live;
      assert Before(was, i) && Behind(was, i) && (i > 0 ==> was[i - 1] in was) && (i + 1 < |was| ==> was[i + 1] in was);
      if block.prev != null {
        block.prev.next := block.next;
      } else {
        memory := block.next;
      }
      if block.next != null {
        block.next.prev := block.prev;
      }
      live := live[..i] + live[i + 1..];
      forall k | 0 <= k < |live| ensures Before(live, k) && Behind(live, k) {
        var l := if k < i then k else k + 1;
        assert live[k] == was[l] && old(Before(was, l) && Behind(was, l));
      }
    }

    method Obtain(id: BlockId, size: nat, address: int) returns (ptr: Pointer)
      requires Valid() && id != OtherId
      modifies this`memory, this`live, this`allocatedmemory, this`totalmemorysize, this`numblocks, Blocks(live)
      ensures Valid() && fresh(ptr.header) && live == [ptr.header] + old(live)
      ensures ptr.header.id == id && ptr.header.size == size + HEADER && BlockFromPointer(ptr) == ptr.header
    {
      var block := new MemoryBlock(id, address + HEADER, size + HEADER);
      LinkMemoryBlock(block);
      allocatedmemory := allocatedmemory + block.size;
      totalmemorysize := totalmemorysize + block.size + HEADER;
      numblocks := numblocks + 1;
      ptr := Pointer(block, block.ptr);
    }

    /** `address` is where the zone finds room. */
    method GetMemory(size: nat, address: int) returns (ptr: Pointer)
      requires Valid()
      modifies this`memory, this`live, this`allocatedmemory, this`totalmemorysize, this`numblocks, Blocks(live)
      ensures Valid() && fresh(ptr.header) && live == [ptr.header] + old(live)
      ensures ptr.header.id == MemId && ptr.header.size == size + HEADER && BlockFromPointer(ptr) == ptr.header
    {
      ptr := Obtain(MemId, size, address);
    }

    method GetHunkMemory(size: nat, address: int) returns (ptr: Pointer)
      requires Valid()
      modifies this`memory, this`live, this`allocatedmemory, this`totalmemorysize, this`numblocks, Blocks(live)
      ensures Valid() && fresh(ptr.header) && live == [ptr.header] + old(live)
      ensures ptr.header.id == HunkId && ptr.header.size == size + HEADER && BlockFromPointer(ptr) == ptr.header
    {
      ptr := Obtain(HunkId, size, address);
    }

    /** A pointer to a live block frees that block; any other that has no header of
        the manager before it changes nothing. */
    method FreeMemory(ptr: Pointer)
      requires Valid()
      requires BlockFromPointer(ptr) != null ==> ptr.header in live
      modifies this, Blocks(live)
      ensures Valid()
      ensures BlockFromPointer(ptr) == null ==> live == old(live) && returned == old(returned)
      ensures BlockFromPointer(ptr) != null ==>
                exists i ::
                    0 <= i < |old(live)| && old(live)[i] == ptr.header && live == old(live)[..i] + old(live)[i + 1..]
      ensures BlockFromPointer(ptr) != null ==> returned == old(returned) + FromZone([ptr.header])
    {
      hide Sizes, Before, Behind, FromZone;
      var block := BlockFromPointer(ptr);
      if block == null { return; }
      ghost var i :| 0 <= i < |live| && live[i] == block;
      ghost var was := live;
      SizesWithout(was, i);
      UnlinkMemoryBlock(block, i);
      allocatedmemory := allocatedmemory - block.size;
      totalmemorysize := totalmemorysize - (block.size + HEADER);
      numblocks := numblocks - 1;
      if block.id == MemId {
        returned := returned + [block];
      }
      OneCounts(block);
    }

    /** 0 for a pointer the manager does not know. */
    method MemoryByteSize(ptr: Pointer) returns (size: nat)
      ensures size == if BlockFromPointer(ptr) == null then 0 else ptr.header.size
    {
      var block := BlockFromPointer(ptr);
      if block == null { return 0; }
      return block.size;
    }

    /** Frees every block; those from the zone go back to it, in list order. */
    method DumpMemory()
      requires Valid()
      modifies this, Blocks(live)
      ensures Valid() && live == [] && memory == null
      ensures numblocks == 0 && allocatedmemory == 0 && totalmemorysize == 0
      ensures returned == old(returned) + FromZone(old(live))
    {
      hide Sizes, Before, Behind, FromZone;
      var block := memory;
      ghost var (all, before) := (live, returned);
      while block != null
        invariant Valid() && block == memory
        invariant forall b <- live :: b in all
        invariant returned + FromZone(live) == before + FromZone(all)
        decreases |live|
      {
        ghost var was := live;
        FreeMemory(Pointer(block, block.ptr));
        FrontRemoved(was, live, block);
        block := memory;
      }
      NothingCounts();
      totalmemorysize := 0;
      allocatedmemory := 0;
    }
  }

  /** Taking the front block out of a list of distinct blocks leaves the rest. */
  lemma FrontRemoved(was: seq<MemoryBlock>, now: seq<MemoryBlock>, block: MemoryBlock)
    requires was != [] && was[0] == block && forall i, j :: 0 <= i < j < |was| ==> was[i] != was[j]
    requires exists i :: 0 <= i < |was| && was[i] == block && now == was[..i] + was[i + 1..]
    ensures now == was[1..] && FromZone(was) == FromZone([block]) + FromZone(now)
  {
    assert [block][1..] == [];
  }
}
