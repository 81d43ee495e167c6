/**
 * include/ashe/memory_pool.h: an allocator of equal blocks whose headers link
 * them into a live and a free list.
 */
module MemoryPools {
  import opened Machine
  import NumberTheory
  import opened Sequences
  import opened Streaming

  /** sizeof and alignof of the header, two pointers, on a 64-bit target. */
  const HEADER_SIZE: int := 16
  const HEADER_ALIGN: int := 8

  // ----- padPointer -----

  /** (align - p) % align in 64-bit unsigned arithmetic. */
  function PadPointer(p: nat, align: nat): nat
    requires align > 0
  {
    (align - p) % TWO_TO_64 % align
  }

  /** For an alignment that divides 2^64 it is the least padding that aligns p. */
  lemma PadPointerAligns(p: nat, align: nat)
    requires align > 0 && TWO_TO_64 % align == 0
    ensures (p + PadPointer(p, align)) % align == 0 && PadPointer(p, align) < align
    ensures PadPointer(p, align) == 0 <==> p % align == 0
  {
    hide PadPointer;
    var turns := PaddingTurns(p, align);
    MultipleOf(align, turns, p + PadPointer(p, align));
    NoPaddingIff(p, PadPointer(p, align), align, turns);
  }

  lemma NoPaddingIff(p: nat, pad: nat, align: nat, turns: int)
    requires align > pad && p + pad == turns * align
    ensures pad == 0 <==> p % align == 0
  {
    if pad == 0 {
      NumberTheory.DivModUnique(p, align, turns, 0);
    } else {
      NumberTheory.Distribute(turns, 1, align);
      NumberTheory.DivModUnique(p, align, turns - 1, align - pad);
    }
  }

  /** The padded pointer is a whole number of alignments. */
  lemma PaddingTurns(p: nat, align: nat) returns (turns: int)
    requires align > 0 && TWO_TO_64 % align == 0
    ensures p + PadPointer(p, align) == turns * align && PadPointer(p, align) < align
  {
    var per, wraps := TWO_TO_64 / align, (align - p) / TWO_TO_64;
    var wrapped := (align - p) % TWO_TO_64;
    assert TWO_TO_64 == per * align;
    WrapsInTurns(wraps, per, align);
    CombineTurns(align, wraps * per, wrapped / align);
    turns := 1 - wraps * per - wrapped / align;
    assert wrapped == (wrapped / align) * align + PadPointer(p, align);
  }

  lemma WrapsInTurns(wraps: int, per: int, align: int)
    ensures wraps * (per * align) == (wraps * per) * align
  {}

  lemma CombineTurns(align: int, x: int, y: int)
    ensures (1 - x - y) * align == align - x * align - y * align
  {
    NumberTheory.Distribute(1 - x, y, align);
    NumberTheory.Distribute(1, x, align);
  }

  lemma MultipleOf(m: int, k: int, n: int)
    requires m > 0 && n == k * m
    ensures n % m == 0
  {
    NumberTheory.DivModUnique(n, m, k, 0);
  }

  // ----- lists threaded through the headers -----

  class Block {
    /** Where operator new put the header; the body follows it. */
    const address: nat
    var pre: Block?
    var next: Block?
    var body: seq<byte>

    constructor (address: nat, body: seq<byte>)
      ensures this.address == address && this.body == body && pre == null && next == null
    {
      this.address := address;
      this.body := body;
      pre, next := null, null;
    }
  }

  function Front(bs: seq<Block>, otherwise: Block?): Block? { if bs == [] then otherwise else bs[0] }

  function Back(bs: seq<Block>, otherwise: Block?): Block? { if bs == [] then otherwise else bs[|bs| - 1] }

  /** Neighbours in bs point at each other; the ends point at before and after. */
  ghost predicate Segment(bs: seq<Block>, before: Block?, after: Block?)
    reads bs`pre, bs`next
  {
    && (forall i {:trigger bs[i]} :: 0 <= i < |bs| ==> bs[i].pre == if i == 0 then before else bs[i - 1])
    && (forall i {:trigger bs[i]} :: 0 <= i < |bs| ==> bs[i].next == if i == |bs| - 1 then after else bs[i + 1])
  }

  lemma SegmentSplit(a: seq<Block>, c: seq<Block>, before: Block?, after: Block?)
    requires Segment(a + c, before, after)
    ensures Segment(a, before, Front(c, after)) && Segment(c, Back(a, before), after)
  {
    var bs := a + c;
    forall i {:trigger a[i]} | 0 <= i < |a|
      ensures a[i].pre == (if i == 0 then before else a[i - 1])
      ensures a[i].next == if i == |a| - 1 then Front(c, after) else a[i + 1]
    {
      assert bs[i] == a[i];
    }
    forall i {:trigger c[i]} | 0 <= i < |c|
      ensures c[i].pre == (if i == 0 then Back(a, before) else c[i - 1])
      ensures c[i].next == if i == |c| - 1 then after else c[i + 1]
    {
      assert bs[|a| + i] == c[i];
    }
  }

  lemma SegmentJoin(a: seq<Block>, c: seq<Block>, before: Block?, after: Block?)
    requires Segment(a, before, Front(c, after)) && Segment(c, Back(a, before), after)
    ensures Segment(a + c, before, after)
  {
    var bs := a + c;
    forall i {:trigger bs[i]} | 0 <= i < |bs|
      ensures bs[i].pre == (if i == 0 then before else bs[i - 1])
      ensures bs[i].next == if i == |bs| - 1 then after else bs[i + 1]
    {
      if i < |a| { assert bs[i] == a[i]; } else { assert bs[i] == c[i - |a|]; }
    }
  }

  lemma SegmentOne(b: Block, before: Block?, after: Block?)
    ensures Segment([b], before, after) <==> b.pre == before && b.next == after
  {
    if Segment([b], before, after) { assert [b][0] == b; }
  }

  lemma SegmentNone(bs: seq<Block>, before: Block?, after: Block?)
    requires bs == []
    ensures Segment(bs, before, after)
  {}

  /** first->pre = x, where first heads the list bs. */
  method SetPre(first: Block, x: Block?, ghost bs: seq<Block>, ghost before: Block?, ghost after: Block?)
    requires bs != [] && bs[0] == first && Distinct(bs) && Segment(bs, before, after)
    modifies first`pre
    ensures first.pre == x && Segment(bs, x, after)
  {
    OthersAreOthers(bs);
    hide Distinct;
    first.pre := x;
  }

  /** last->next = x, where last ends the list bs. */
  method SetNext(last: Block, x: Block?, ghost bs: seq<Block>, ghost before: Block?, ghost after: Block?)
    requires bs != [] && bs[|bs| - 1] == last && Distinct(bs) && Segment(bs, before, after)
    modifies last`next
    ensures last.next == x && Segment(bs, before, x)
  {
    OthersAreOthers(bs);
    hide Distinct;
    last.next := x;
  }

  // ----- the pool -----

  ghost function BlocksOf(bs: seq<Block>): set<Block> {
    set b | b in bs
  }

  /** The memory maps exactly the addresses of the blocks to them, and they do not overlap. */
  ghost predicate Registry(memory: map<nat, Block>, blocks: set<Block>, size: nat) {
    && (forall b :: b in blocks ==> b.address in memory && memory[b.address] == b)
    && (forall a :: a in memory ==> memory[a].address == a && memory[a] in blocks)
    && (forall a :: a in memory ==> Placed(a, size))
    && (forall a, c :: a in memory && c in memory && a != c ==> Apart(a, c, size))
  }

  lemma RegistryMore(memory: map<nat, Block>, blocks: set<Block>, size: nat, b: Block)
    requires Registry(memory, blocks, size) && b.address !in memory
    requires Placed(b.address, size) && forall a :: a in memory ==> Apart(a, b.address, size)
    ensures Registry(memory[b.address := b], blocks + {b}, size)
  {}

  class MemoryPool {
    const blockSize: nat
    const zeroOnDeallocate: bool
    var dataElement: Block?
    var freeElement: Block?
    /** The address space: which header operator new put at an address. */
    var memory: map<nat, Block>
    ghost var live: seq<Block>
    ghost var free: seq<Block>

    ghost predicate Lists()
      reads this`live, this`free, this`dataElement, this`freeElement, live`pre, live`next, free`pre, free`next
    {
      && Distinct(live) && Distinct(free) && (forall b :: b in live ==> b !in free)
      && Segment(live, null, null) && Segment(free, null, null)
      && dataElement == Front(live, null) && freeElement == Front(free, null)
    }

    /** Every block ever obtained is in one of the lists, and is found at its own address. */
    ghost predicate Registered()
      reads this`live, this`free, this`memory
    {
      blockSize >= 2 * HEADER_SIZE && Registry(memory, BlocksOf(live + free), blockSize)
    }

    ghost predicate Valid()
      reads this, live`pre, live`next, free`pre, free`next
    {
      Lists() && Registered()
    }

    constructor (blockSize: nat, zeroOnDeallocate: bool)
      requires blockSize >= 2 * HEADER_SIZE
      ensures Valid() && live == [] && free == [] && memory == map[]
      ensures this.blockSize == blockSize && this.zeroOnDeallocate == zeroOnDeallocate
    {
      this.blockSize, this.zeroOnDeallocate := blockSize, zeroOnDeallocate;
      dataElement, freeElement := null, null;
      memory := map[];
      live, free := [], [];
    }

    /** The pointer allocate hands out for a header. */
    function PointerOf(b: Block): nat {
      var body := b.address + HEADER_SIZE;
      body + PadPointer(body, HEADER_ALIGN)
    }

    /** Puts b, which is in no list, at the head of the live list. */
    method PushLive(b: Block)
      requires Lists() && b !in live && b !in free
      modifies this`dataElement, this`live, b`pre, b`next, live`pre
      ensures Lists() && live == [b] + old(live)
    {
      hide Segment, Distinct;
      b.next := dataElement;
      if dataElement != null {
        assert live[0] in live;
        SetPre(dataElement, b, live, null, null);
      } else {
        SegmentNone(live, b, null);
      }
      b.pre := null;
      dataElement := b;
      SegmentOne(b, null, Front(live, null));
      SegmentJoin([b], live, null, null);
      DistinctMore(live, b);
      assert Segment(free, null, null);
      live := [b] + live;
    }

    /** The head of the free list leaves it. */
    method PopFree() returns (tmp: Block)
      requires Lists() && free != []
      modifies this`freeElement, this`free, free`pre
      ensures Lists() && old(free) != [] && tmp == old(free)[0] && free == old(free)[1..]
      ensures tmp !in live && tmp !in free
    {
      hide Segment, Distinct;
      tmp := freeElement;
      ghost var rest := free[1..];
      assert free == [tmp] + rest;
      Members([tmp], rest);
      SegmentSplit([tmp], rest, null, null);
      SegmentOne(tmp, null, Front(rest, null));
      DistinctSplit([tmp], rest);
      freeElement := freeElement.next;
      if freeElement != null {
        assert rest[0] == free[1] && free[1] in free;
        SetPre(freeElement, null, rest, tmp, null);
      } else {
        SegmentNone(rest, null, null);
      }
      assert Segment(live, null, null);
      free := rest;
    }

    /** What operator new returns, should the free list be empty: an address, and whatever bytes are there. */
    method Allocate(newAddress: nat, garbage: seq<byte>) returns (p: nat)
      requires Valid()
      requires freeElement == null ==>
                 && Placed(newAddress, blockSize) && |garbage| == blockSize - HEADER_SIZE
                 && forall a :: a in memory ==> Apart(a, newAddress, blockSize)
      modifies this, live`pre, live`next, free`pre, free`next
      ensures Valid() && live != [] && live[1..] == old(live) && live[0] !in old(live)
      ensures p == live[0].address + HEADER_SIZE
      ensures old(free) != [] ==> live[0] == old(free)[0] && free == old(free)[1..] && memory == old(memory)
      ensures old(free) == [] ==>
                && fresh(live[0]) && free == [] && memory == old(memory)[newAddress := live[0]]
                && live[0].body == garbage
    {
      hide Segment, Distinct, Registry;
      if freeElement != null {
        ghost var ls, fs := live, free;
        var tmp := PopFree();
        PushLive(tmp);
        SameBlocks(ls, fs);
        assert BlocksOf(ls + fs) == BlocksOf(live + free);
        Placement(memory, BlocksOf(ls + fs), blockSize, tmp);
        PaddingIsZero(tmp.address);
        p := PointerOf(tmp);
      } else {
        p := AllocateBlock(newAddress, garbage);
      }
    }

    method AllocateBlock(newAddress: nat, garbage: seq<byte>) returns (p: nat)
      requires Valid() && free == [] && |garbage| == blockSize - HEADER_SIZE
      requires Placed(newAddress, blockSize) && forall a :: a in memory ==> Apart(a, newAddress, blockSize)
      modifies this`dataElement, this`memory, this`live, live`pre
      ensures Valid() && live != [] && live[1..] == old(live) && fresh(live[0])
      ensures memory == old(memory)[newAddress := live[0]] && p == live[0].address + HEADER_SIZE
      ensures live[0].body == garbage
    {
      hide Segment, Distinct, Registry;
      NotTaken(newAddress, blockSize, memory);
      ghost var ls := live;
      var b := new Block(newAddress, garbage);
      RegistryMore(memory, BlocksOf(live + free), blockSize, b);
      PushLive(b);
      memory := memory[newAddress := b];
      assert BlocksOf(live + free) == BlocksOf(ls + free) + {b};
      PaddingIsZero(newAddress);
      p := PointerOf(b);
    }

    /** ele leaves the live list a + [ele] + c. */
    method Unlink(ele: Block, ghost a: seq<Block>, ghost c: seq<Block>)
      requires Lists() && live == a + ([ele] + c)
      modifies this`dataElement, this`live, live`pre, live`next
      ensures Lists() && live == a + c && ele !in live && ele !in free
    {
      hide Segment, Distinct;
      UnlinkFacts(a, ele, c);
      Members(a, [ele] + c);
      Members([ele], c);
      Members(a, c);
      assert forall i {:trigger a[i]} :: 0 <= i < |a| ==> a[i] in live && a[i] !in free;
      assert forall i {:trigger c[i]} :: 0 <= i < |c| ==> c[i] in live && c[i] !in free;
      BypassBlock(ele, a, c);
      if ele.pre == null {
        dataElement := ele.next;
      }
      assert Segment(free, null, null);
      live := a + c;
    }

    /** The neighbours of ele point at each other. */
    method BypassBlock(ele: Block, ghost a: seq<Block>, ghost c: seq<Block>)
      requires Segment(a, null, ele) && Segment(c, ele, null) && Distinct(a) && Distinct(c)
      requires ele.pre == Back(a, null) && ele.next == Front(c, null)
      requires (forall x :: x in a ==> x !in c) && ele !in a && ele !in c
      modifies a`next, c`pre
      ensures Segment(a + c, null, null) && ele.pre == old(ele.pre) && ele.next == old(ele.next)
    {
      hide Segment, Distinct;
      if ele.pre != null {
        assert a[|a| - 1] in a;
        SetNext(ele.pre, ele.next, a, null, ele);
      } else {
        SegmentNone(a, null, Front(c, null));
      }
      assert Segment(c, ele, null) && Segment(a, null, Front(c, null));
      if ele.next != null {
        assert c[0] in c;
        SetPre(ele.next, ele.pre, c, ele, null);
      } else {
        SegmentNone(c, Back(a, null), null);
      }
      assert Segment(a, null, Front(c, null));
      SegmentJoin(a, c, null, null);
    }

    /** Puts ele, which is in no list, at the head of the free list. */
    method PushFree(ele: Block)
      requires Lists() && ele !in live && ele !in free
      modifies this`freeElement, this`free, ele`pre, ele`next, free`pre
      ensures Lists() && free == [ele] + old(free)
    {
      hide Segment, Distinct;
      ele.pre := null;
      if freeElement != null {
        assert free[0] in free;
        ele.next := freeElement;
        SetPre(freeElement, ele, free, null, null);
      } else {
        ele.next := null;
        SegmentNone(free, ele, null);
      }
      freeElement := ele;
      SegmentOne(ele, null, Front(free, null));
      SegmentJoin([ele], free, null, null);
      DistinctMore(free, ele);
      assert Segment(live, null, null);
      free := [ele] + free;
    }

    /** p is null (0) or a pointer that allocate gave out and that is still live. */
    method Deallocate(p: nat)
      requires Valid()
      requires p != 0 ==> p >= HEADER_SIZE && p - HEADER_SIZE in memory && memory[p - HEADER_SIZE] in live
      modifies this`dataElement, this`freeElement, this`live, this`free, live`pre, live`next, live`body, free`pre
      ensures Valid()
      ensures p == 0 ==> live == old(live) && free == old(free) && forall b :: b in old(live) ==> b.body == old(b.body)
      ensures p != 0 ==> var b := memory[p - HEADER_SIZE];
        && free == [b] + old(free) && live == Without(old(live), b)
        && b.body == (if zeroOnDeallocate then Zeros(blockSize - HEADER_SIZE) else old(b.body))
        && forall c :: c in old(live) && c != b ==> c.body == old(c.body)
    {
      hide Segment, Distinct, Registry;
      if p != 0 {
        var ele := memory[p - HEADER_SIZE];
        if zeroOnDeallocate {
          ele.body := Zeros(blockSize - HEADER_SIZE);
        }
        ghost var ls, fs := live, free;
        ghost var a, c := SplitAt(live, ele);
        WithoutMiddle(a, ele, c);
        Unlink(ele, a, c);
        PushFree(ele);
        MovedBlock(a, ele, c, fs);
      }
    }

    /** The destructor: the two walks give back every block once. */
    method Destroy() returns (freed: seq<Block>)
      requires Valid()
      ensures freed == live + free
      ensures forall i, j :: 0 <= i < j < |freed| ==> freed[i] != freed[j]
      ensures forall a :: a in memory ==> memory[a] in freed
    {
      hide Segment, Distinct;
      var liveOnes := DeleteList(dataElement, live);
      var freeOnes := DeleteList(freeElement, free);
      freed := liveOnes + freeOnes;
      DistinctJoin(live, free);
      DistinctMeans(freed);
    }

    /** Walks a list from its head and gives back each block after reading which one follows. */
    method DeleteList(start: Block?, ghost bs: seq<Block>) returns (freed: seq<Block>)
      requires start == Front(bs, null) && Segment(bs, null, null)
      ensures freed == bs
    {
      var curr := start;
      freed := [];
      while curr != null
        invariant |freed| <= |bs| && freed == bs[..|freed|]
        invariant curr == if |freed| == |bs| then null else bs[|freed|]
        decreases |bs| - |freed|
      {
        assert bs[|freed|].next == if |freed| == |bs| - 1 then null else bs[|freed| + 1];
        var prev := curr.next;
        freed := freed + [curr];
        curr := prev;
      }
    }
  }

  lemma SplitAt(bs: seq<Block>, b: Block) returns (a: seq<Block>, c: seq<Block>)
    requires b in bs
    ensures bs == a + ([b] + c)
  {
    var i :| 0 <= i < |bs| && bs[i] == b;
    a, c := bs[..i], bs[i + 1..];
  }

  lemma UnlinkFacts(a: seq<Block>, ele: Block, c: seq<Block>)
    requires Segment(a + ([ele] + c), null, null) && Distinct(a + ([ele] + c))
    ensures Segment(a, null, ele) && Segment(c, ele, null) && Distinct(a) && Distinct(c) && Distinct(a + c)
    ensures ele.pre == Back(a, null) && ele.next == Front(c, null)
    ensures (forall x :: x in a ==> x !in c) && ele !in a && ele !in c
  {
    hide Segment, Distinct;
    SegmentSplit(a, [ele] + c, null, null);
    SegmentSplit([ele], c, Back(a, null), null);
    SegmentOne(ele, Back(a, null), Front(c, null));
    DistinctSplit(a, [ele] + c);
    DistinctSplit([ele], c);
    Members([ele], c);
    DistinctJoin(a, c);
  }

  ghost function Without(bs: seq<Block>, b: Block): seq<Block> {
    if bs == [] then [] else if bs[0] == b then bs[1..] else [bs[0]] + Without(bs[1..], b)
  }

  lemma {:induction false} WithoutMiddle(a: seq<Block>, b: Block, c: seq<Block>)
    requires Distinct(a + ([b] + c))
    ensures Without(a + ([b] + c), b) == a + c
  {
    var bs := a + ([b] + c);
    if a == [] {
      assert bs[1..] == c && a + c == c;
    } else {
      assert bs[1..] == a[1..] + ([b] + c) && bs[|a|] == b;
      DistinctLess(bs);
      WithoutMiddle(a[1..], b, c);
      assert [a[0]] + (a[1..] + c) == a + c;
    }
  }

  lemma MovedBlock(a: seq<Block>, b: Block, c: seq<Block>, fs: seq<Block>)
    ensures BlocksOf((a + ([b] + c)) + fs) == BlocksOf((a + c) + ([b] + fs))
  {
    Members(a + ([b] + c), fs);
    Members(a, [b] + c);
    Members([b], c);
    Members(a + c, [b] + fs);
    Members(a, c);
    Members([b], fs);
  }

  /** Two blocks of the pool never overlap. */
  lemma BlocksApart(pool: MemoryPool, b: Block, c: Block)
    requires pool.Valid() && b in pool.live + pool.free && c in pool.live + pool.free && b != c
    ensures Apart(b.address, c.address, pool.blockSize)
  {}

  /** An aligned header has an aligned body, so allocate skips exactly the header. */
  lemma PaddingIsZero(a: nat)
    requires a % HEADER_ALIGN == 0
    ensures PadPointer(a + HEADER_SIZE, HEADER_ALIGN) == 0
  {
    PadPointerAligns(a + HEADER_SIZE, HEADER_ALIGN);
  }

  lemma SameBlocks(ls: seq<Block>, fs: seq<Block>)
    requires fs != []
    ensures forall b :: b in ls + fs <==> b in ([fs[0]] + ls) + fs[1..]
  {
    assert fs == [fs[0]] + fs[1..];
  }

  lemma Placement(memory: map<nat, Block>, blocks: set<Block>, size: nat, b: Block)
    requires Registry(memory, blocks, size) && b in blocks
    ensures Placed(b.address, size)
  {}

  lemma NotTaken(a: nat, size: nat, memory: map<nat, Block>)
    requires size > 0 && forall c :: c in memory ==> Apart(c, a, size)
    ensures a !in memory
  {}

  /** What operator new promises of an address. */
  ghost predicate Placed(a: nat, size: nat) {
    a > 0 && a % HEADER_ALIGN == 0 && a + size <= TWO_TO_64
  }

  ghost predicate Apart(a: nat, c: nat, size: nat) {
    a + size <= c || c + size <= a
  }
}
