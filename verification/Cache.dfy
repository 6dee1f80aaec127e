// The block cache of sys/cache.c: a doubly linked list of cache_node objects, head most recent.

module Cache {
  import opened Errors
  import opened Sequences
  import opened CacheSpec

  class CacheNode {
    var data: Block
    var next: CacheNode?
    var prev: CacheNode?
    var blkPos: nat
    var dirty: bool
    var refcnt: nat

    constructor (blk: nat)
      ensures next == null && prev == null && blkPos == blk && !dirty && refcnt == 1
      ensures data == seq(BLKSZ, _ => 0)
    {
      data := seq(BLKSZ, _ => 0);
      next, prev := null, null;
      blkPos := blk;
      dirty := false;
      refcnt := 1;
    }
  }

  // The i-th node of the list, null off either end.
  ghost function At(ns: seq<CacheNode>, i: int): CacheNode? {
    if 0 <= i < |ns| then ns[i] else null
  }

  // The links of the nodes spell out the list ns, in both directions.
  ghost predicate Linked(ns: seq<CacheNode>)
    reads ns`next, ns`prev
  {
    && NoDup(ns)
    && (forall i {:trigger ns[i].next} :: 0 <= i < |ns| ==> ns[i].next == At(ns, i + 1))
    && (forall i {:trigger ns[i].prev} :: 0 <= i < |ns| ==> ns[i].prev == At(ns, i - 1))
  }

  ghost function LineOf(n: CacheNode): Line
    reads n`blkPos, n`data, n`dirty, n`refcnt
  {
    Line(n.blkPos, n.data, n.dirty, n.refcnt)
  }

  // The nodes hold the lines ls, in the same order.
  ghost predicate Shows(ns: seq<CacheNode>, ls: seq<Line>)
    reads ns`blkPos, ns`data, ns`dirty, ns`refcnt
  {
    |ls| == |ns| && forall i {:trigger ls[i]} {:trigger LineOf(ns[i])} :: 0 <= i < |ns| ==> ls[i] == LineOf(ns[i])
  }

  class BlockCache {
    var disc: seq<Block>
    var head: CacheNode?
    var tail: CacheNode?
    var count: nat
    ghost var nodes: seq<CacheNode>
    ghost var lines: seq<Line>

    ghost predicate Wired()
      reads this`head, this`tail, this`nodes, nodes`next, nodes`prev
    {
      head == At(nodes, 0) && tail == At(nodes, |nodes| - 1) && Linked(nodes)
    }

    ghost predicate Valid()
      reads this, nodes
    {
      Wired() && count == |nodes| <= MAX_NODES && Shows(nodes, lines)
    }

    ghost function Abs(): State
      reads this
    {
      State(lines, disc)
    }

    constructor (disk: seq<Block>)
      ensures Valid() && Abs() == State([], disk)
    {
      disc := disk;
      head, tail, count := null, null, 0;
      nodes, lines := [], [];
    }

    // the search loop of cache_get_block
    method Search(blknum: nat) returns (curr: CacheNode?, ghost i: nat)
      requires Valid()
      ensures i == Find(Abs().lines, blknum) && curr == At(nodes, i)
    {
      curr := head;
      i := 0;
      while curr != null
        invariant i <= |nodes| && curr == At(nodes, i)
        invariant forall k :: 0 <= k < i ==> nodes[k].blkPos != blknum
        decreases |nodes| - i
      {
        if curr.blkPos == blknum {
          FindFirst(lines, blknum, i);
          return;
        }
        curr := curr.next;
        i := i + 1;
      }
      FindFirst(lines, blknum, i);
    }

    // move-to-front of a hit: out of the middle of the list ...
    method Bypass(curr: CacheNode, ghost i: nat)
      requires Wired() && 0 < i < |nodes| && curr == nodes[i]
      modifies this`tail, this`nodes, nodes`next, nodes`prev
      ensures Wired() && nodes == Without(old(nodes), i)
    {
      ghost var ns := nodes;
      NoDupWithout(ns, i);
      OnlyAt(ns, i - 1);
      if i < |ns| - 1 { OnlyAt(ns, i + 1); }
      if curr.prev != null { curr.prev.next := curr.next; }
      if curr.next != null { curr.next.prev := curr.prev; }
      if tail == curr { tail := curr.prev; }
      nodes := Without(ns, i);
      forall k {:trigger nodes[k].next} {:trigger nodes[k].prev} | 0 <= k < |nodes|
        ensures nodes[k].next == At(nodes, k + 1) && nodes[k].prev == At(nodes, k - 1)
      {
        assert nodes[k] == ns[if k < i then k else k + 1];
      }
    }

    // ... and in again at the front
    method Prepend(curr: CacheNode)
      requires Wired() && curr !in nodes && |nodes| > 0
      modifies this`head, this`nodes, nodes`prev, curr`next, curr`prev
      ensures Wired() && nodes == [curr] + old(nodes)
    {
      NoDupCons(curr, nodes);
      OnlyAt(nodes, 0);
      curr.prev := null;
      curr.next := head;
      if head != null { head.prev := curr; }
      head := curr;
      nodes := [curr] + nodes;
    }

    // the least recently used unpinned node, searched from the tail
    method FindVictim() returns (victim: CacheNode?, ghost v: int)
      requires Valid()
      ensures v == Victim(Abs().lines) && victim == At(nodes, v)
    {
      victim := tail;
      v := |nodes| - 1;
      while victim != null && victim.refcnt != 0
        invariant -1 <= v < |nodes| && victim == At(nodes, v)
        invariant forall k :: v < k < |nodes| ==> nodes[k].refcnt != 0
        decreases v + 1
      {
        victim := victim.prev;
        v := v - 1;
      }
      LastUnpinned(lines, v);
    }

    // unlinks a node that is being given up
    method Unlink(victim: CacheNode, ghost v: nat)
      requires Wired() && v < |nodes| && victim == nodes[v]
      modifies this`head, this`tail, this`nodes, nodes`next, nodes`prev
      ensures Wired() && nodes == Without(old(nodes), v)
    {
      ghost var ns := nodes;
      NoDupWithout(ns, v);
      if v > 0 { OnlyAt(ns, v - 1); }
      if v < |ns| - 1 { OnlyAt(ns, v + 1); }
      if victim.prev != null { victim.prev.next := victim.next; } else { head := victim.next; }
      if victim.next != null { victim.next.prev := victim.prev; } else { tail := victim.prev; }
      nodes := Without(ns, v);
      forall k {:trigger nodes[k].next} {:trigger nodes[k].prev} | 0 <= k < |nodes|
        ensures nodes[k].next == At(nodes, k + 1) && nodes[k].prev == At(nodes, k - 1)
      {
        assert nodes[k] == ns[if k < v then k else k + 1];
      }
    }

    // links a freshly filled node in at the front
    method PushFront(node: CacheNode)
      requires Valid() && node !in nodes && node.next == head && node.prev == null && count < MAX_NODES
      modifies this`head, this`tail, this`count, this`nodes, this`lines, nodes`prev
      ensures Valid() && nodes == [node] + old(nodes) && lines == [LineOf(node)] + old(lines)
    {
      NoDupCons(node, nodes);
      if |nodes| > 0 { OnlyAt(nodes, 0); }
      head := node;
      if tail == null {
        tail := node;
      } else {
        node.next.prev := node;
      }
      count := count + 1;
      nodes, lines := [node] + nodes, [LineOf(node)] + lines;
    }

    // writes a dirty victim back and drops it; false if the store came up short
    method GiveUp(victim: CacheNode, ghost v: nat, stored: int) returns (ok: bool)
      requires Valid() && v < |nodes| && victim == nodes[v] && stored <= BLKSZ
      modifies this, nodes`next, nodes`prev
      ensures Valid() && Abs() == Evict(old(Abs()), v, stored)
      ensures ok <==> !(old(victim.dirty) && ShortTransfer(stored))
      ensures nodes == if ok then Without(old(nodes), v) else old(nodes)
    {
      if victim.dirty {
        disc := StoreBlock(disc, victim.blkPos, victim.data, stored);
        if ShortTransfer(stored) { return false; }
      }
      Drop(victim, v);
      ok := true;
    }

    method Drop(victim: CacheNode, ghost v: nat)
      requires Valid() && v < |nodes| && victim == nodes[v]
      modifies this`head, this`tail, this`count, this`nodes, this`lines, nodes`next, nodes`prev
      ensures Valid() && nodes == Without(old(nodes), v) && lines == Without(old(lines), v)
    {
      Unlink(victim, v);
      count := count - 1;
      lines := Without(lines, v);
    }

    // reads the block into a new node; null if the fetch came up short
    method LoadNode(blknum: nat, fetched: int) returns (node: CacheNode?)
      requires Valid() && count < MAX_NODES && fetched <= BLKSZ
      modifies this, nodes`prev
      ensures Valid() && Abs() == Load(old(Abs()), blknum, fetched)
      ensures node == null <==> ShortTransfer(fetched)
      ensures node == null ==> nodes == old(nodes)
      ensures node != null ==> fresh(node) && nodes == [node] + old(nodes)
    {
      var n := new CacheNode(blknum);
      n.next := head;
      n.data := Fetched(disc, blknum, fetched);
      if ShortTransfer(fetched) { return null; }
      PushFront(n);
      node := n;
    }

    method GetBlock(pos: nat, stored: int, fetched: int) returns (rc: int, p: CacheNode?)
      requires Valid() && stored <= BLKSZ && fetched <= BLKSZ
      modifies this, nodes
      ensures Valid() && (Abs(), rc) == Get(old(Abs()), pos, stored, fetched)
      ensures if rc == 0 then |nodes| > 0 && p == nodes[0] else p == null
      ensures forall n :: n in nodes ==> n in old(nodes) || fresh(n)
    {
      if pos % BLKSZ != 0 { return -EINVAL, null; }
      var blknum := pos / BLKSZ;
      var curr;
      ghost var i;
      curr, i := Search(blknum);
      if curr != null {
        Obtain(curr, i);
        return 0, curr;
      }
      rc, p := Miss(blknum, stored, fetched);
    }

    // gives up the least recently used unpinned block
    method MakeRoom(stored: int) returns (rc: int)
      requires Valid() && stored <= BLKSZ && count == MAX_NODES
      modifies this, nodes`next, nodes`prev
      ensures Valid() && (Abs(), rc) == CacheSpec.MakeRoom(old(Abs()), stored)
      ensures rc == 0 ==> count < MAX_NODES
      ensures rc == 0 ==> Victim(old(lines)) >= 0 && nodes == Without(old(nodes), Victim(old(lines)))
      ensures rc != 0 ==> nodes == old(nodes)
    {
      var victim;
      ghost var v;
      victim, v := FindVictim();
      if victim == null { return -EBUSY; }
      var ok := GiveUp(victim, v, stored);
      rc := if ok then 0 else -EIO;
    }

    // makes room if need be, then loads the block
    method Miss(blknum: nat, stored: int, fetched: int) returns (rc: int, p: CacheNode?)
      requires Valid() && stored <= BLKSZ && fetched <= BLKSZ
      modifies this, nodes`next, nodes`prev
      ensures Valid() && (Abs(), rc) == CacheSpec.Miss(old(Abs()), blknum, stored, fetched)
      ensures if rc == 0 then |nodes| > 0 && p == nodes[0] else p == null
      ensures forall n :: n in nodes ==> n in old(nodes) || fresh(n)
    {
      if count == MAX_NODES {
        rc := MakeRoom(stored);
        if rc != 0 { return rc, null; }
      }
      p := LoadNode(blknum, fetched);
      rc := if p == null then -EIO else 0;
    }

    // a hit: pinned and moved to the front
    method Obtain(curr: CacheNode, ghost i: nat)
      requires Valid() && i < |nodes| && curr == nodes[i]
      modifies this`head, this`tail, this`nodes, this`lines, nodes
      ensures Valid() && Abs() == Hit(old(Abs()), i)
      ensures |nodes| > 0 && nodes[0] == curr
      ensures forall n :: n in nodes ==> n in old(nodes)
    {
      ghost var s := Abs();
      Pin(curr, i);
      ToFront(curr, i);
      HitIs(s, i, lines);
    }

    // one more holder of a block
    method Pin(curr: CacheNode, ghost i: nat)
      requires Valid() && i < |nodes| && curr == nodes[i]
      modifies this`lines, curr`refcnt
      ensures Valid() && lines == old(lines)[i := old(lines)[i].(refcnt := old(lines)[i].refcnt + 1)]
    {
      OnlyAt(nodes, i);
      curr.refcnt := curr.refcnt + 1;
      lines := lines[i := LineOf(curr)];
    }

    // a block just obtained becomes the head
    method ToFront(curr: CacheNode, ghost i: nat)
      requires Valid() && i < |nodes| && curr == nodes[i]
      modifies this`head, this`tail, this`nodes, this`lines, nodes`next, nodes`prev
      ensures Valid() && nodes == [curr] + Without(old(nodes), i)
      ensures lines == [old(lines)[i]] + Without(old(lines), i)
      ensures forall n :: n in nodes ==> n in old(nodes)
    {
      FrontWithin(nodes, i);
      if curr != head {
        ghost var ns := nodes;
        NoDupWithout(ns, i);
        Bypass(curr, i);
        Prepend(curr);
        ShowsFront(ns, lines, i);
        lines := [lines[i]] + Without(lines, i);
      } else {
        if i > 0 { OnlyAt(nodes, 0); }
        FrontIsFront(nodes);
        FrontIsFront(lines);
      }
    }

    // cache_release_block
    method ReleaseBlock(node: CacheNode, dirty: bool, ghost i: nat)
      requires Valid() && i < |nodes| && node == nodes[i]
      modifies this`lines, node`dirty, node`refcnt
      ensures Valid() && Abs() == Release(old(Abs()), i, dirty)
    {
      OnlyAt(nodes, i);
      if dirty { node.dirty := true; }
      if node.refcnt > 0 { node.refcnt := node.refcnt - 1; }
      lines := lines[i := LineOf(node)];
    }

    // writes one dirty node back while flushing
    method Clean(curr: CacheNode, ghost i: nat, stored: int) returns (ok: bool)
      requires Valid() && i < |nodes| && curr == nodes[i] && curr.dirty && stored <= BLKSZ
      modifies this`disc, this`lines, curr`dirty
      ensures Valid() && ok == !ShortTransfer(stored)
      ensures Abs() == if ok then Cleaned(WriteBack(old(Abs()), i, stored), i) else WriteBack(old(Abs()), i, stored)
    {
      OnlyAt(nodes, i);
      disc := StoreBlock(disc, curr.blkPos, curr.data, stored);
      if ShortTransfer(stored) { return false; }
      curr.dirty := false;
      lines := lines[i := LineOf(curr)];
      ok := true;
    }

    // cache_flush; results[k] is the device's answer for the k-th node
    method FlushCache(results: seq<int>) returns (rc: int)
      requires Valid() && |results| == count && (forall k :: 0 <= k < |results| ==> results[k] <= BLKSZ)
      modifies this`disc, this`lines, nodes`dirty
      ensures Valid() && (Abs(), rc) == Flush(old(Abs()), results, 0)
    {
      var curr := head;
      var i := 0;
      while curr != null
        invariant Valid() && i <= |nodes| && curr == At(nodes, i)
        invariant Flush(old(Abs()), results, 0) == Flush(Abs(), results, i)
        decreases |nodes| - i
      {
        if curr.dirty {
          var ok := Clean(curr, i, results[i]);
          if !ok { return -EIO; }
        }
        curr := curr.next;
        i := i + 1;
      }
      rc := 0;
    }
  }

  lemma ShowsFront(ns: seq<CacheNode>, ls: seq<Line>, i: nat)
    requires i < |ns| && Shows(ns, ls)
    ensures Shows([ns[i]] + Without(ns, i), [ls[i]] + Without(ls, i))
  {
  }

  // Pinning a line and moving it to the front is a hit.
  lemma HitIs(s: State, i: nat, lines: seq<Line>)
    requires i < |s.lines|
    requires var pinned := s.lines[i := s.lines[i].(refcnt := s.lines[i].refcnt + 1)];
      lines == [pinned[i]] + Without(pinned, i)
    ensures State(lines, s.disk) == Hit(s, i)
  {
    var line := s.lines[i].(refcnt := s.lines[i].refcnt + 1);
    assert Without(s.lines[i := line], i) == Without(s.lines, i);
  }

  lemma FrontWithin<T>(s: seq<T>, i: nat)
    requires i < |s|
    ensures forall x :: x in [s[i]] + Without(s, i) ==> x in s
  {
  }

  lemma FrontIsFront<T>(s: seq<T>)
    requires |s| > 0
    ensures s == [s[0]] + Without(s, 0)
  {
  }

  lemma FindFirst(lines: seq<Line>, blk: nat, i: nat)
    requires i <= |lines| && (i < |lines| ==> lines[i].blk == blk)
    requires forall k :: 0 <= k < i ==> lines[k].blk != blk
    ensures Find(lines, blk) == i
  {
  }

  lemma LastUnpinned(lines: seq<Line>, v: int)
    requires -1 <= v < |lines| && (v >= 0 ==> lines[v].refcnt == 0)
    requires forall k :: v < k < |lines| ==> lines[k].refcnt != 0
    ensures Victim(lines) == v
  {
  }
}
