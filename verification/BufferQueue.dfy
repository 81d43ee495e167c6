/**
 * src/buffer_queue.cpp: a queue of byte buffers on a doubly linked list, with
 * reads that cross element boundaries.
 */
module BufferQueues {
  import opened Machine
  import opened Options
  import opened Sequences

  // ----- the abstract queue: a sequence of byte strings -----

  function Flat(es: seq<seq<byte>>): seq<byte> {
    if es == [] then [] else es[0] + Flat(es[1..])
  }

  function Min(a: nat, b: nat): nat { if a <= b then a else b }

  ghost predicate NonEmpty(es: seq<seq<byte>>) {
    forall i :: 0 <= i < |es| ==> es[i] != []
  }

  /** What is left after the first n bytes are taken: whole elements go, one may be shortened. */
  function DropBytes(es: seq<seq<byte>>, n: nat): seq<seq<byte>> {
    if es == [] then []
    else if n >= |es[0]| then DropBytes(es[1..], n - |es[0]|)
    else [es[0][n..]] + es[1..]
  }

  /** The number of elements that lose at least one of the first n bytes. */
  function Crossed(es: seq<seq<byte>>, n: nat): nat {
    if es == [] || n == 0 then 0 else 1 + Crossed(es[1..], n - Min(n, |es[0]|))
  }

  lemma {:induction false} FlatAppend(a: seq<seq<byte>>, b: seq<seq<byte>>)
    ensures Flat(a + b) == Flat(a) + Flat(b)
  {
    hide Flat;
    if a == [] {
      FlatNone();
      assert a + b == b;
    } else {
      FlatAppend(a[1..], b);
      assert (a + b)[0] == a[0] && (a + b)[1..] == a[1..] + b;
      FlatStep(a + b);
      FlatStep(a);
      Regroup(a[0], Flat(a[1..]), Flat(b));
    }
  }

  lemma FlatNone()
    ensures Flat([]) == []
  {}

  lemma FlatStep(es: seq<seq<byte>>)
    requires es != []
    ensures Flat(es) == es[0] + Flat(es[1..])
  {}

  lemma FlatOne(e: seq<byte>)
    ensures Flat([e]) == e
  {
    assert Flat([e][1..]) == [];
  }

  lemma {:induction false} DropBytesFlat(es: seq<seq<byte>>, n: nat)
    requires n <= |Flat(es)|
    ensures Flat(DropBytes(es, n)) == Flat(es)[n..]
  {
    if es != [] {
      if n >= |es[0]| {
        DropBytesFlat(es[1..], n - |es[0]|);
      } else {
        FlatOne(es[0][n..]);
        FlatAppend([es[0][n..]], es[1..]);
      }
    }
  }

  lemma {:induction false} DropBytesNonEmpty(es: seq<seq<byte>>, n: nat)
    requires NonEmpty(es)
    ensures NonEmpty(DropBytes(es, n))
  {
    if es != [] && n >= |es[0]| {
      DropBytesNonEmpty(es[1..], n - |es[0]|);
    }
  }

  /** Taking all the bytes, or more, takes every element. */
  lemma {:induction false} DropBytesAll(es: seq<seq<byte>>, n: nat)
    requires NonEmpty(es)
    ensures DropBytes(es, n) == [] <==> n >= |Flat(es)|
  {
    if es != [] && n >= |es[0]| {
      DropBytesAll(es[1..], n - |es[0]|);
    }
  }

  /** Of the elements crossed, all but a shortened one are gone. */
  lemma {:induction false} CrossedElements(es: seq<seq<byte>>, n: nat)
    requires NonEmpty(es)
    ensures Crossed(es, n) <= |es|
    ensures |DropBytes(es, n)| == |es| - Crossed(es, n) || |DropBytes(es, n)| == |es| - Crossed(es, n) + 1
    ensures n >= |Flat(es)| ==> Crossed(es, n) == |es|
  {
    if es != [] && n >= |es[0]| {
      CrossedElements(es[1..], n - |es[0]|);
    }
  }

  /** The number crossed is the least k whose first k elements hold n bytes. */
  lemma {:induction false} CrossedPrefix(es: seq<seq<byte>>, n: nat)
    requires NonEmpty(es) && 0 < n <= |Flat(es)|
    ensures 0 < Crossed(es, n) <= |es|
    ensures |Flat(es[..Crossed(es, n) - 1])| < n <= |Flat(es[..Crossed(es, n)])|
  {
    var k := Crossed(es, n);
    if n <= |es[0]| {
      FlatOne(es[0]);
      assert es[..1] == [es[0]];
    } else {
      CrossedPrefix(es[1..], n - |es[0]|);
      assert es[..k] == [es[0]] + es[1..][..k - 1];
      assert es[..k - 1] == [es[0]] + es[1..][..k - 2];
    }
  }

  lemma FlatLast(es: seq<seq<byte>>)
    requires es != []
    ensures |Flat(es)| == |Flat(es[..|es| - 1])| + |es[|es| - 1]|
  {
    FlatAppend(es[..|es| - 1], [es[|es| - 1]]);
    FlatOne(es[|es| - 1]);
    assert es == es[..|es| - 1] + [es[|es| - 1]];
  }

  // ----- the linked list -----

  class Node {
    /** The buffer at dataStartAddress, written once; readPos is where dataReadAddress points. */
    const data: seq<byte>
    var readPos: nat
    var size: nat
    var prev: Node?
    var next: Node?

    constructor (data: seq<byte>)
      ensures this.data == data && readPos == 0 && size == |data|
    {
      this.data := data;
      readPos := 0;
      size := |data|;
    }

    predicate Holds(e: seq<byte>)
      reads this`readPos, this`size
    {
      readPos + size <= |data| && e == data[readPos..readPos + size]
    }

    /** The first k bytes are read; the read address may stay when nothing is left to read. */
    method Skip(k: nat, advance: bool, ghost e: seq<byte>)
      requires Holds(e) && k <= |e| && (advance || k == |e|)
      modifies this`size, this`readPos
      ensures Holds(e[k..]) && size == old(size) - k
    {
      size := size - k;
      if advance {
        readPos := readPos + k;
      }
    }
  }

  function Before(ns: seq<Node>, i: nat, before: Node?): Node?
    requires i < |ns|
  {
    if i == 0 then before else ns[i - 1]
  }

  function After(ns: seq<Node>, i: nat, after: Node?): Node?
    requires i < |ns|
  {
    if i == |ns| - 1 then after else ns[i + 1]
  }

  function Front(ns: seq<Node>): Node? { if ns == [] then null else ns[0] }

  function Back(ns: seq<Node>): Node? { if ns == [] then null else ns[|ns| - 1] }

  /** Neighbours in ns point at each other; the ends point at before and after. */
  ghost predicate Segment(ns: seq<Node>, before: Node?, after: Node?)
    reads ns`prev, ns`next
  {
    && (forall i {:trigger ns[i]} :: 0 <= i < |ns| ==> ns[i].prev == Before(ns, i, before))
    && (forall i {:trigger ns[i]} :: 0 <= i < |ns| ==> ns[i].next == After(ns, i, after))
  }

  ghost predicate Chain(ns: seq<Node>)
    reads ns`prev, ns`next
  {
    Distinct(ns) && Segment(ns, null, null)
  }

  /** The rest of a list does not notice what happens to its first node. */
  lemma SegmentFront(ns: seq<Node>, before: Node?, after: Node?)
    requires ns != []
    ensures Segment(ns, before, after)
       <==> ns[0].prev == before && ns[0].next == (if |ns| == 1 then after else ns[1]) && Segment(ns[1..], ns[0], after)
  {
    if ns[0].prev == before && ns[0].next == (if |ns| == 1 then after else ns[1]) && Segment(ns[1..], ns[0], after) {
      forall i {:trigger ns[i]} | 0 <= i < |ns|
        ensures ns[i].prev == Before(ns, i, before) && ns[i].next == After(ns, i, after)
      {
        if i > 0 { assert ns[i] == ns[1..][i - 1]; }
      }
    }
    if Segment(ns, before, after) {
      var t := ns[1..];
      forall i {:trigger t[i]} | 0 <= i < |t|
        ensures t[i].prev == Before(t, i, ns[0]) && t[i].next == After(t, i, after)
      {
        assert t[i] == ns[i + 1];
      }
    }
  }

  lemma SegmentBack(ns: seq<Node>, before: Node?, after: Node?)
    requires ns != []
    ensures var k := |ns| - 1;
      Segment(ns, before, after)
      <==>
        && ns[k].next == after && ns[k].prev == (if k == 0 then before else ns[k - 1])
        && Segment(ns[..k], before, ns[k])
  {
    var k := |ns| - 1;
    if ns[k].next == after && ns[k].prev == (if k == 0 then before else ns[k - 1]) && Segment(ns[..k], before, ns[k]) {
      forall i {:trigger ns[i]} | 0 <= i < |ns|
        ensures ns[i].prev == Before(ns, i, before) && ns[i].next == After(ns, i, after)
      {
        if i < k { assert ns[i] == ns[..k][i]; }
      }
    }
    if Segment(ns, before, after) {
      var t := ns[..k];
      forall i {:trigger t[i]} | 0 <= i < |t|
        ensures t[i].prev == Before(t, i, before) && t[i].next == After(t, i, ns[k])
      {
        assert t[i] == ns[i];
      }
    }
  }

  lemma SegmentNone(ns: seq<Node>, before: Node?, after: Node?)
    requires ns == []
    ensures Segment(ns, before, after)
  {}

  ghost predicate Hold(ns: seq<Node>, es: seq<seq<byte>>)
    reads ns`readPos, ns`size
  {
    |ns| == |es| && forall i {:trigger ns[i]} :: 0 <= i < |ns| ==> ns[i].Holds(es[i])
  }

  lemma HoldFront(ns: seq<Node>, es: seq<seq<byte>>)
    requires Hold(ns, es) && es != []
    ensures ns != [] && ns[0].Holds(es[0]) && Hold(ns[1..], es[1..])
    ensures |Flat(es)| == |es[0]| + |Flat(es[1..])|
  {}

  lemma HoldBack(ns: seq<Node>, es: seq<seq<byte>>)
    requires Hold(ns, es) && es != []
    ensures var k := |es| - 1; ns[k].Holds(es[k]) && Hold(ns[..k], es[..k])
    ensures |Flat(es)| == |Flat(es[..|es| - 1])| + |es[|es| - 1]|
  {
    FlatLast(es);
  }

  lemma HoldMoreFront(n: Node, e: seq<byte>, ns: seq<Node>, es: seq<seq<byte>>)
    requires Hold(ns, es) && n.Holds(e)
    ensures Hold([n] + ns, [e] + es) && |Flat([e] + es)| == |e| + |Flat(es)|
  {
    FlatOne(e);
    FlatAppend([e], es);
  }

  lemma HoldMoreBack(n: Node, e: seq<byte>, ns: seq<Node>, es: seq<seq<byte>>)
    requires Hold(ns, es) && n.Holds(e)
    ensures Hold(ns + [n], es + [e]) && |Flat(es + [e])| == |e| + |Flat(es)|
  {
    FlatOne(e);
    FlatAppend(es, [e]);
  }

  lemma HoldOtherFront(ns: seq<Node>, e: seq<byte>, es: seq<seq<byte>>)
    requires ns != [] && es != [] && ns[0].Holds(e) && Hold(ns[1..], es[1..])
    ensures Hold(ns, [e] + es[1..])
  {
    HoldMoreFront(ns[0], e, ns[1..], es[1..]);
    assert [ns[0]] + ns[1..] == ns;
  }

  /** The first bytes of an element are read at readPos. */
  lemma ReadPrefix(n: Node, e: seq<byte>, size: nat)
    requires n.Holds(e) && size <= |e|
    ensures n.size == |e| && n.readPos + size <= |n.data| && n.data[n.readPos..n.readPos + size] == e[..size]
  {}

  class BufferQueue {
    var first: Node?
    var last: Node?
    var elementNum: nat
    var totalDataSize: nat
    ghost var nodes: seq<Node>
    ghost var elements: seq<seq<byte>>

    /** The links are those of the sequence nodes. */
    ghost predicate Linked()
      reads this`first, this`last, this`nodes, nodes`prev, nodes`next
    {
      Chain(nodes) && first == Front(nodes) && last == Back(nodes)
    }

    /** The nodes hold the elements, and the counters are exact. */
    ghost predicate Counted()
      reads this`nodes, this`elements, this`elementNum, this`totalDataSize, nodes`readPos, nodes`size
    {
      Hold(nodes, elements) && elementNum == |elements| && totalDataSize == |Flat(elements)|
    }

    ghost predicate Valid()
      reads this, nodes
    {
      Linked() && Counted() && NonEmpty(elements)
    }

    constructor ()
      ensures Valid() && elements == [] && nodes == []
    {
      first, last := null, null;
      elementNum, totalDataSize := 0, 0;
      nodes, elements := [], [];
    }

    method LinkFront(elem: Node)
      requires Linked() && elem !in nodes
      modifies this`first, this`last, this`nodes, elem`prev, elem`next, nodes`prev
      ensures Linked() && nodes == [elem] + old(nodes)
    {
      hide Distinct, Segment;
      ghost var ns := nodes;
      DistinctMore(ns, elem);
      elem.prev := null;
      if first == null {
        elem.next := null;
        first := elem;
        last := elem;
      } else {
        SegmentFront(ns, null, null);
        DistinctLess(ns);
        elem.next := first;
        first.prev := elem;
        first := elem;
        SegmentFront(ns, elem, null);
      }
      nodes := [elem] + nodes;
      assert nodes[1..] == ns;
      if ns == [] { SegmentNone(ns, elem, null); }
      SegmentFront(nodes, null, null);
    }

    method LinkLast(elem: Node)
      requires Linked() && elem !in nodes
      modifies this`first, this`last, this`nodes, elem`prev, elem`next, nodes`next
      ensures Linked() && nodes == old(nodes) + [elem]
    {
      hide Distinct, Segment;
      ghost var ns := nodes;
      DistinctMore(ns, elem);
      elem.next := null;
      if last == null {
        elem.prev := null;
        first := elem;
        last := elem;
      } else {
        SegmentBack(ns, null, null);
        DistinctLess(ns);
        elem.prev := last;
        last.next := elem;
        last := elem;
        SegmentBack(ns, null, elem);
      }
      nodes := nodes + [elem];
      assert nodes[..|ns|] == ns;
      if ns == [] { SegmentNone(ns, null, elem); }
      SegmentBack(nodes, null, null);
    }

    method UnlinkFront()
      requires Linked() && nodes != []
      modifies this`first, this`last, this`nodes, nodes`prev
      ensures Linked() && nodes == old(nodes)[1..]
    {
      hide Distinct, Segment;
      ghost var rest := nodes[1..];
      SegmentFront(nodes, null, null);
      DistinctLess(nodes);
      var next := first.next;
      if next != null {
        SegmentFront(rest, nodes[0], null);
        DistinctLess(rest);
        next.prev := null;
        first := next;
        SegmentFront(rest, null, null);
      } else {
        first, last := null, null;
        SegmentNone(rest, null, null);
      }
      nodes := rest;
    }

    method UnlinkLast()
      requires Linked() && nodes != []
      modifies this`first, this`last, this`nodes, nodes`next
      ensures Linked() && nodes == old(nodes)[..|old(nodes)| - 1]
    {
      hide Distinct, Segment;
      ghost var k := |nodes| - 1;
      ghost var rest := nodes[..k];
      SegmentBack(nodes, null, null);
      DistinctLess(nodes);
      var prev := last.prev;
      if prev != null {
        SegmentBack(rest, null, nodes[k]);
        DistinctLess(rest);
        prev.next := null;
        last := prev;
        SegmentBack(rest, null, null);
      } else {
        first, last := null, null;
        SegmentNone(rest, null, null);
      }
      nodes := rest;
    }

    /** data is None for a null pointer. */
    method PushElementToFront(data: Option<seq<byte>>) returns (ok: bool)
      requires Valid()
      modifies this, nodes`prev
      ensures Valid()
      ensures ok <==> data.Some? && data.value != []
      ensures elements == if ok then [data.value] + old(elements) else old(elements)
      ensures forall n :: n in nodes ==> n in old(nodes) || fresh(n)
    {
      hide Chain, Hold, Flat, Front, Back;
      if data.None? || |data.value| == 0 { return false; }
      var elem := new Node(data.value);
      HoldMoreFront(elem, data.value, nodes, elements);
      totalDataSize := totalDataSize + |data.value|;
      elementNum := elementNum + 1;
      LinkFront(elem);
      elements := [data.value] + elements;
      return true;
    }

    method PushElementToLast(data: Option<seq<byte>>) returns (ok: bool)
      requires Valid()
      modifies this, nodes`next
      ensures Valid()
      ensures ok <==> data.Some? && data.value != []
      ensures elements == if ok then old(elements) + [data.value] else old(elements)
      ensures forall n :: n in nodes ==> n in old(nodes) || fresh(n)
    {
      hide Chain, Hold, Flat, Front, Back;
      if data.None? || |data.value| == 0 { return false; }
      var elem := new Node(data.value);
      HoldMoreBack(elem, data.value, nodes, elements);
      totalDataSize := totalDataSize + |data.value|;
      elementNum := elementNum + 1;
      LinkLast(elem);
      elements := elements + [data.value];
      return true;
    }

    /** capacity is 0 when there is no buffer; copied is what memcpy puts into it. */
    method PopElementFromFront(capacity: nat) returns (copied: seq<byte>)
      requires Linked() && Counted()
      modifies this, nodes`prev
      ensures Linked() && Counted()
      ensures old(elements) == [] ==> copied == [] && elements == [] && nodes == []
      ensures old(elements) != [] ==>
        && copied == old(elements)[0][..Min(|old(elements)[0]|, capacity)]
        && elements == old(elements)[1..] && nodes == old(nodes)[1..]
    {
      hide Chain, Flat, Back;
      copied := [];
      if elementNum > 0 {
        HoldFront(nodes, elements);
        hide Hold;
        if capacity > 0 {
          var size := if first.size > capacity then capacity else first.size;
          ReadPrefix(first, elements[0], size);
          copied := first.data[first.readPos..first.readPos + size];
        }
        elementNum := elementNum - 1;
        totalDataSize := totalDataSize - first.size;
        UnlinkFront();
        elements := elements[1..];
      }
    }

    method PopElementFromLast(capacity: nat) returns (copied: seq<byte>)
      requires Valid()
      modifies this, nodes`next
      ensures Valid()
      ensures old(elements) == [] ==> copied == [] && elements == []
      ensures old(elements) != [] ==>
        var k := |old(elements)| - 1;
        && copied == old(elements)[k][..Min(|old(elements)[k]|, capacity)]
        && elements == old(elements)[..k] && nodes == old(nodes)[..k]
    {
      hide Chain, Flat, Front;
      copied := [];
      if elementNum > 0 {
        ghost var k := elementNum - 1;
        HoldBack(nodes, elements);
        hide Hold;
        if capacity > 0 {
          var size := if last.size > capacity then capacity else last.size;
          ReadPrefix(last, elements[k], size);
          copied := last.data[last.readPos..last.readPos + size];
        }
        elementNum := elementNum - 1;
        totalDataSize := totalDataSize - last.size;
        UnlinkLast();
        elements := elements[..k];
      }
    }

    method GetDataFromFrontElement(capacity: nat) returns (copied: seq<byte>)
      requires Valid()
      ensures copied == if elements == [] then [] else elements[0][..Min(|elements[0]|, capacity)]
    {
      hide Chain, Flat, Back;
      copied := [];
      if elementNum > 0 {
        HoldFront(nodes, elements);
        if capacity != 0 {
          var size := if first.size > capacity then capacity else first.size;
          ReadPrefix(first, elements[0], size);
          copied := first.data[first.readPos..first.readPos + size];
        }
      }
    }

    method GetDataFromLastElement(capacity: nat) returns (copied: seq<byte>)
      requires Valid()
      ensures copied ==
        if elements == [] then [] else var k := |elements| - 1; elements[k][..Min(|elements[k]|, capacity)]
    {
      hide Chain, Flat, Front;
      copied := [];
      if elementNum != 0 {
        HoldBack(nodes, elements);
        if capacity != 0 {
          var size := if last.size > capacity then capacity else last.size;
          ReadPrefix(last, elements[elementNum - 1], size);
          copied := last.data[last.readPos..last.readPos + size];
        }
      }
    }

    /** k bytes of the first element are gone. */
    method Shorten(k: nat, advance: bool)
      requires Linked() && Counted() && elements != [] && k <= |elements[0]| && (advance || k == |elements[0]|)
      modifies this`totalDataSize, this`elements, nodes`size, nodes`readPos
      ensures Linked() && Counted() && elements == [old(elements)[0][k..]] + old(elements)[1..]
      ensures totalDataSize == old(totalDataSize) - k
    {
      hide Chain, Back, Front, Flat, Hold;
      ghost var ns, es, e := nodes, elements, elements[0][k..];
      HoldFront(ns, es);
      FrontOf(ns);
      FrontAlone(ns);
      FlatWithFront(e, es);
      first.Skip(k, advance, es[0]);
      totalDataSize := totalDataSize - k;
      elements := [e] + es[1..];
      HoldOtherFront(ns, e, es);
    }

    /** The whole first element is read: its size becomes 0, and popElementFromFront(nullptr, 0) removes it. */
    method RemoveRead()
      requires Valid() && elements != []
      modifies this, nodes
      ensures Valid() && elements == old(elements)[1..] && nodes == old(nodes)[1..]
    {
      hide Chain, Hold, Flat, Front, Back;
      HoldFront(nodes, elements);
      FrontOf(nodes);
      Shorten(first.size, false);
      var none := PopElementFromFront(0);
    }

    /** The loop body: copy from the first element, shorten or remove it. */
    method ReadFront(need: nat) returns (part: seq<byte>, left: nat, gone: nat)
      requires Valid() && elements != [] && need > 0
      modifies this, nodes
      ensures Valid() && (nodes == old(nodes) || nodes == old(nodes)[Min(1, |old(nodes)|)..])
      ensures part + Flat(elements) == Flat(old(elements)) && |part| == need - left && left < need
      ensures DropBytes(elements, left) == DropBytes(old(elements), need)
      ensures gone == |old(elements)| - |elements|
    {
      hide Chain, Hold, Flat, Front, Back, NonEmpty, DropBytes;
      TakeFromFront(elements, need);
      HoldFront(nodes, elements);
      FrontOf(nodes);
      ReadPrefix(first, elements[0], Min(need, |elements[0]|));
      if first.size >= need {
        part := first.data[first.readPos..first.readPos + need];
        if first.size == need {
          gone := 1;
          RemoveRead();
        } else {
          gone := 0;
          Shorten(need, true);
        }
        left := 0;
        DropNone(elements);
      } else {
        part := first.data[first.readPos..first.readPos + first.size];
        left := need - first.size;
        gone := 1;
        RemoveRead();
      }
    }

    /** out is what memcpy puts into the output buffer; thrown is None when *pBufferIsThrown is not written. */
    method PopDataCrossElement(n: nat) returns (out: seq<byte>, thrown: Option<nat>)
      requires Valid()
      modifies this, nodes
      ensures Valid()
      ensures out == Flat(old(elements))[..Min(n, |Flat(old(elements))|)]
      ensures elements == DropBytes(old(elements), n)
      ensures thrown == if old(elements) == [] || n == 0 then None else Some(|old(elements)| - |elements|)
    {
      hide Chain, Hold, Flat, Front, Back, NonEmpty;
      ghost var es := elements;
      out, thrown := [], None;
      NothingToRead(es, n);
      if elementNum != 0 && totalDataSize > 0 && n > 0 {
        var need, removed := n, 0;
        while true
          invariant Valid() && elements != [] && need > 0
          invariant forall i {:trigger nodes[i]} :: 0 <= i < |nodes| ==> nodes[i] in old(nodes)
          invariant out + Flat(elements) == Flat(es) && |out| == n - need
          invariant DropBytes(elements, need) == DropBytes(es, n) && removed == |es| - |elements|
          decreases need
        {
          ghost var was, ns := out, nodes;
          var part, left, gone := ReadFront(need);
          TailIn(ns);
          Regroup(was, part, Flat(elements));
          out, need, removed := out + part, left, removed + gone;
          if need == 0 || elementNum == 0 {
            thrown := Some(removed);
            ReadEnds(es, out, elements, n, need);
            break;
          }
        }
      }
    }

    method RemoveData(n: nat) returns (r: nat)
      requires Valid()
      modifies this, nodes
      ensures Valid() && elements == DropBytes(old(elements), n)
      ensures r == RemoveResult(old(elements), n)
    {
      hide Chain, Hold, Flat, Front, Back, NonEmpty, DropBytes, Crossed;
      ghost var es := elements;
      NothingToRead(es, n);
      if elementNum > 0 && totalDataSize > 0 && n > 0 {
        r := 1;
        var need := n;
        while totalDataSize > 0
          invariant Valid() && need > 0 && r == 1 + |es| - |elements|
          invariant forall i {:trigger nodes[i]} :: 0 <= i < |nodes| ==> nodes[i] in old(nodes)
          invariant DropBytes(elements, need) == DropBytes(es, n)
          invariant Crossed(es, n) == r - 1 + Crossed(elements, need)
          invariant n - need == |Flat(es)| - |Flat(elements)|
          decreases need
        {
          NothingToRead(elements, need);
          TakeFromFront(elements, need);
          CrossedStep(elements, need);
          HoldFront(nodes, elements);
          FrontOf(nodes);
          TailIn(nodes);
          if first.size >= need {
            if first.size == need {
              var none := PopElementFromFront(0);
            } else {
              Shorten(need, true);
            }
            return;
          } else {
            need := need - first.size;
            var none := PopElementFromFront(0);
            r := r + 1;
          }
        }
        NothingToRead(elements, need);
        NothingLeft(need);
      } else {
        r := 0;
      }
    }

    /** The walk frees every node once, in order. */
    method Clear() returns (r: nat, freed: seq<Node>)
      requires Valid()
      modifies this
      ensures Valid() && elements == [] && nodes == []
      ensures r == |old(elements)| && freed == old(nodes)
    {
      hide Chain, Hold, Flat, NonEmpty;
      r, freed := elementNum, [];
      ghost var ns := nodes;
      HoldLength(ns, elements);
      if elementNum > 0 {
        var elem, next := first, first;
        while next != null
          invariant |freed| <= |ns| && freed == ns[..|freed|] && elem == next
          invariant next == Rest(ns, |freed|)
          decreases |ns| - |freed|
        {
          NextInChain(ns, |freed|);
          freed := freed + [next];
          next := next.next;
          elem := next;
        }
      }
      first, last := null, null;
      elementNum, totalDataSize := 0, 0;
      nodes, elements := [], [];
      EmptyHolds();
    }

    /** The source reads first_element_->size without a test. */
    method GetFrontElementDataSize() returns (size: nat)
      requires Valid() && elements != []
      ensures size == |elements[0]|
    {
      HoldFront(nodes, elements);
      size := first.size;
    }

    method GetLastElementDataSize() returns (size: nat)
      requires Valid() && elements != []
      ensures size == |elements[|elements| - 1]|
    {
      HoldBack(nodes, elements);
      size := last.size;
    }

    /** The loop both conversions share: copy element after element. */
    method CopyAll() returns (buf: seq<byte>)
      requires Valid()
      ensures buf == Flat(elements)
    {
      hide Flat, Chain, Hold;
      var p, remaining := first, totalDataSize;
      ghost var i := 0;
      buf := [];
      HoldLength(nodes, elements);
      FlatNone();
      assert elements[..0] == [] && elements[0..] == elements;
      while p != null && remaining > 0
        invariant 0 <= i <= |nodes| == |elements| && p == Rest(nodes, i)
        invariant buf == Flat(elements[..i]) && remaining == |Flat(elements[i..])|
        decreases |nodes| - i
      {
        NextInChain(nodes, i);
        HoldAt(nodes, elements, i);
        FlatTake(elements, i);
        ReadPrefix(p, elements[i], p.size);
        buf := buf + p.data[p.readPos..p.readPos + p.size];
        remaining := remaining - p.size;
        p := p.next;
        i := i + 1;
      }
      NothingToReadAfter(elements, i);
    }

    method ToOneBuffer() returns (buf: seq<byte>, size: nat)
      requires Valid()
      ensures buf == Flat(elements) && size == |buf|
    {
      buf := CopyAll();
      size := totalDataSize;
    }

    method ToOneBufferWithNullEnding() returns (buf: seq<byte>, size: nat)
      requires Valid()
      ensures buf == Flat(elements) + [0] && size == |buf|
    {
      buf := CopyAll();
      buf := buf + [0];
      size := totalDataSize + 1;
    }
  }

  /** The node the walk reaches after i nodes. */
  function Rest(ns: seq<Node>, i: nat): Node?
    requires i <= |ns|
  {
    if i == |ns| then null else ns[i]
  }

  lemma NextInChain(ns: seq<Node>, i: nat)
    requires Chain(ns) && i < |ns|
    ensures ns[i].next == Rest(ns, i + 1)
  {
    assert ns[i].next == After(ns, i, null);
  }

  lemma HoldLength(ns: seq<Node>, es: seq<seq<byte>>)
    requires Hold(ns, es)
    ensures |ns| == |es|
  {}

  lemma HoldAt(ns: seq<Node>, es: seq<seq<byte>>, i: nat)
    requires Hold(ns, es) && i < |ns|
    ensures i < |es| && ns[i].Holds(es[i])
  {}

  lemma EmptyHolds()
    ensures Chain([]) && Hold([], []) && Flat([]) == [] && NonEmpty([])
  {}

  lemma FlatTake(es: seq<seq<byte>>, i: nat)
    requires i < |es|
    ensures Flat(es[..i + 1]) == Flat(es[..i]) + es[i] && |Flat(es[i..])| == |es[i]| + |Flat(es[i + 1..])|
  {
    hide Flat;
    FlatOne(es[i]);
    FlatAppend(es[..i], [es[i]]);
    assert es[..i] + [es[i]] == es[..i + 1];
    FlatStep(es[i..]);
    assert es[i..][1..] == es[i + 1..];
  }

  lemma NothingToReadAfter(es: seq<seq<byte>>, i: nat)
    requires NonEmpty(es) && i <= |es| && (i == |es| || |Flat(es[i..])| == 0)
    ensures es[..i] == es
  {
    NothingToRead(es[i..], 0);
  }

  /** The value removeData returns. */
  function RemoveResult(es: seq<seq<byte>>, n: nat): nat {
    if es == [] || n == 0 then 0 else if n <= |Flat(es)| then Crossed(es, n) else |es| + 1
  }

  /** It is the number of elements crossed exactly when that many bytes are there, or nothing is. */
  lemma RemoveResultIsCrossedIff(es: seq<seq<byte>>, n: nat)
    requires NonEmpty(es)
    ensures RemoveResult(es, n) == Crossed(es, n) <==> es == [] || n <= |Flat(es)|
  {
    CrossedElements(es, n);
  }

  lemma CrossedStep(es: seq<seq<byte>>, n: nat)
    requires es != [] && n > 0
    ensures n <= |es[0]| ==> Crossed(es, n) == 1
    ensures n > |es[0]| ==> Crossed(es, n) == 1 + Crossed(es[1..], n - |es[0]|)
  {}

  lemma {:induction false} DropNone(es: seq<seq<byte>>)
    requires NonEmpty(es)
    ensures DropBytes(es, 0) == es
  {
    if es != [] {
      assert [es[0][0..]] + es[1..] == es;
    }
  }

  lemma NothingToRead(es: seq<seq<byte>>, n: nat)
    requires NonEmpty(es)
    ensures |Flat(es)| == 0 <==> es == []
    ensures es == [] || n == 0 ==> DropBytes(es, n) == es && Flat(es)[..Min(n, |Flat(es)|)] == []
  {
    DropNone(es);
  }

  lemma ReadEnds(es: seq<seq<byte>>, out: seq<byte>, left: seq<seq<byte>>, n: nat, need: nat)
    requires out + Flat(left) == Flat(es) && |out| == n - need && (need == 0 || left == [])
    requires NonEmpty(left) && DropBytes(left, need) == DropBytes(es, n)
    ensures out == Flat(es)[..Min(n, |Flat(es)|)] && left == DropBytes(es, n)
  {
    DropNone(left);
    hide Flat, DropBytes;
    if need > 0 { FlatNone(); NothingLeft(need); }
  }

  lemma NothingLeft(n: nat)
    ensures DropBytes([], n) == []
  {}

  /** One pass of the loop: the first element gives up to need bytes. */
  lemma TakeFromFront(es: seq<seq<byte>>, need: nat)
    requires NonEmpty(es) && es != []
    ensures need < |es[0]| ==> DropBytes(es, need) == [es[0][need..]] + es[1..]
    ensures need < |es[0]| ==> NonEmpty([es[0][need..]] + es[1..])
    ensures need < |es[0]| ==> Flat(es) == es[0][..need] + Flat([es[0][need..]] + es[1..])
    ensures need == |es[0]| ==> DropBytes(es, need) == es[1..]
    ensures need >= |es[0]| ==> DropBytes(es, need) == DropBytes(es[1..], need - |es[0]|)
    ensures es[0] != [] && NonEmpty(es[1..]) && Flat(es) == es[0] + Flat(es[1..])
  {
    if need < |es[0]| {
      FlatOne(es[0][need..]);
      FlatAppend([es[0][need..]], es[1..]);
      Regroup(es[0][..need], es[0][need..], Flat(es[1..]));
      assert es[0] == es[0][..need] + es[0][need..];
    } else {
      DropNone(es[1..]);
    }
  }

  lemma FrontOf(ns: seq<Node>)
    requires ns != []
    ensures Front(ns) == ns[0]
  {}

  lemma TailIn(ns: seq<Node>)
    ensures forall n :: n in ns[Min(1, |ns|)..] ==> n in ns
  {}

  lemma FrontAlone(ns: seq<Node>)
    requires Chain(ns) && ns != []
    ensures ns[0] !in ns[1..]
  {}

  lemma FlatWithFront(e: seq<byte>, es: seq<seq<byte>>)
    requires es != []
    ensures |Flat([e] + es[1..])| == |Flat(es)| - |es[0]| + |e|
  {
    FlatOne(e);
    FlatAppend([e], es[1..]);
  }
}
