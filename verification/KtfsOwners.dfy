// Which slot of which inode owns each data block: the facts that keep blocks from being shared or lost.

module KtfsOwners {
  import opened LittleEndian
  import opened KtfsLayout

  datatype Key = Key(ino: nat, slot: Slot)

  // For every block in use by an inode, the slot that points to it.
  type Owner = map<nat, Key>

  predicate ValidKey(d: Disk, key: Key) {
    key.ino < |d.inodes| && ValidSlot(key.slot)
  }

  function Place(d: Disk, key: Key): nat
    requires ValidKey(d, key)
  {
    At(d.data, d.inodes[key.ino], key.slot)
  }

  predicate Owns(d: Disk, o: Owner, x: nat, s: Slot)
    requires ValidKey(d, Key(x, s))
  {
    var b := Place(d, Key(x, s));
    b in o && o[b] == Key(x, s)
  }

  predicate Entry(d: Disk, o: Owner, b: nat)
    requires b in o
  {
    && b < |d.data|
    && ValidKey(d, o[b]) && Place(d, o[b]) == b
    && (o[b].slot.Sub? ==> Owns(d, o, o[b].ino, o[b].slot.up))
  }

  ghost predicate Sound(d: Disk, o: Owner) {
    forall b {:trigger o[b]} :: b in o ==> Entry(d, o, b)
  }

  // The first n blocks of x, with their index blocks, are owned ...
  ghost predicate Full(d: Disk, o: Owner, x: nat, n: nat)
    requires x < |d.inodes|
  {
    forall s {:trigger Owns(d, o, x, s)} :: ValidSlot(s) && Rank(s) < n ==> Owns(d, o, x, s)
  }

  // ... and nothing beyond them.
  ghost predicate Bounded(o: Owner, x: nat, n: nat) {
    forall b {:trigger o[b]} :: b in o && o[b].ino == x ==> Rank(o[b].slot) < n
  }

  ghost predicate FileOk(d: Disk, o: Owner, x: nat, n: nat)
    requires x < |d.inodes|
  {
    Full(d, o, x, n) && Bounded(o, x, n)
  }

  // The volume: live are the inodes in use.
  ghost predicate Ok(d: Disk, o: Owner, live: set<nat>) {
    && Sound(d, o)
    && (forall b {:trigger o[b]} :: b in o ==> o[b].ino in live)
    && (forall x {:trigger x in live} :: x in live ==>
          x < |d.inodes| && Blocks(d.inodes[x].size) <= MAX_BLOCKS
          && FileOk(d, o, x, Blocks(d.inodes[x].size)))
  }

  // No block is owned twice, by one inode or by two.
  lemma BlocksAreUnshared(d: Disk, o: Owner, live: set<nat>, x: nat, m: nat, y: nat, n: nat)
    requires Ok(d, o, live) && x in live && y in live
    requires m < Blocks(d.inodes[x].size) && n < Blocks(d.inodes[y].size) && (x, m) != (y, n)
    ensures At(d.data, d.inodes[x], DataSlot(m)) != At(d.data, d.inodes[y], DataSlot(n))
  {
    DataSlotRank(m);
    DataSlotRank(n);
    assert Owns(d, o, x, DataSlot(m)) && Owns(d, o, y, DataSlot(n));
  }

  // All owned slots hold the same blocks on both disks.
  ghost predicate SameSlots(d0: Disk, d: Disk, o: Owner) {
    && |d.data| == |d0.data| && |d.inodes| == |d0.inodes|
    && (forall b {:trigger o[b]} :: b in o ==> ValidKey(d, o[b]) && Place(d, o[b]) == b)
  }

  lemma SoundKept(d0: Disk, d: Disk, o: Owner)
    requires Sound(d0, o) && SameSlots(d0, d, o)
    ensures Sound(d, o)
  {
    forall b {:trigger o[b]} | b in o
      ensures Entry(d, o, b)
    {
      assert Entry(d0, o, b);
      if o[b].slot.Sub? {
        var up := Key(o[b].ino, o[b].slot.up);
        assert o[Place(d0, up)] == up;
      }
    }
  }

  lemma OwnsKept(d0: Disk, d: Disk, o: Owner, x: nat, s: Slot)
    requires SameSlots(d0, d, o) && ValidKey(d0, Key(x, s)) && Owns(d0, o, x, s)
    ensures Owns(d, o, x, s) && Place(d, Key(x, s)) == Place(d0, Key(x, s))
  {
    assert o[Place(d0, Key(x, s))] == Key(x, s);
  }

  lemma FullKept(d0: Disk, d: Disk, o: Owner, x: nat, n: nat)
    requires SameSlots(d0, d, o) && x < |d0.inodes| && Full(d0, o, x, n)
    ensures Full(d, o, x, n)
  {
    forall s {:trigger Owns(d, o, x, s)} | ValidSlot(s) && Rank(s) < n
      ensures Owns(d, o, x, s)
    {
      assert Owns(d0, o, x, s);
      OwnsKept(d0, d, o, x, s);
    }
  }

  // Filling an unused field of an inode.
  function WithField(d: Disk, x: nat, f: nat, v: Word): Disk
    requires x < |d.inodes| && f < 7
  {
    d.(inodes := d.inodes[x := SetField(d.inodes[x], f, v)])
  }

  lemma {:induction false} FieldPlace(d: Disk, o: Owner, x: nat, f: nat, v: Word, key: Key)
    requires Sound(d, o) && ValidKey(d, Key(x, Top(f))) && !Owns(d, o, x, Top(f))
    requires ValidKey(d, key) && Owns(d, o, key.ino, key.slot)
    ensures Place(WithField(d, x, f, v), key) == Place(d, key)
    decreases key.slot
  {
    if key.slot.Sub? {
      assert Entry(d, o, Place(d, key));
      FieldPlace(d, o, x, f, v, Key(key.ino, key.slot.up));
    }
  }

  lemma FieldKeeps(d: Disk, o: Owner, x: nat, f: nat, v: Word)
    requires Sound(d, o) && ValidKey(d, Key(x, Top(f))) && !Owns(d, o, x, Top(f))
    ensures SameSlots(d, WithField(d, x, f, v), o)
    ensures Place(WithField(d, x, f, v), Key(x, Top(f))) == v
  {
    forall b {:trigger o[b]} | b in o
      ensures ValidKey(d, o[b]) && Place(WithField(d, x, f, v), o[b]) == b
    {
      assert Entry(d, o, b);
      FieldPlace(d, o, x, f, v, o[b]);
    }
  }

  // Filling an unused word of an index block.
  function WithPtr(d: Disk, p: nat, k: nat, v: Word): Disk
    requires p < |d.data| && k < 128
  {
    d.(data := d.data[p := PutPtr(d.data[p], k, v)])
  }

  lemma {:induction false} PtrPlace(d: Disk, o: Owner, x: nat, up: Slot, k: nat, v: Word, key: Key)
    requires Sound(d, o) && ValidKey(d, Key(x, Sub(up, k))) && Owns(d, o, x, up) && !Owns(d, o, x, Sub(up, k))
    requires ValidKey(d, key) && Owns(d, o, key.ino, key.slot) && Entry(d, o, Place(d, Key(x, up)))
    ensures Place(WithPtr(d, Place(d, Key(x, up)), k, v), key) == Place(d, key)
    decreases key.slot
  {
    if key.slot.Sub? {
      var parent := Key(key.ino, key.slot.up);
      var p := Place(d, parent);
      assert Entry(d, o, Place(d, key));
      PtrPlace(d, o, x, up, k, v, parent);
      if p == Place(d, Key(x, up)) {
        PutPtrPtr(d.data[p], k, v, key.slot.k);
      }
    }
  }

  lemma PtrKeeps(d: Disk, o: Owner, x: nat, up: Slot, k: nat, v: Word)
    requires Sound(d, o) && ValidKey(d, Key(x, Sub(up, k))) && Owns(d, o, x, up) && !Owns(d, o, x, Sub(up, k))
    ensures var p := Place(d, Key(x, up));
      p < |d.data| && SameSlots(d, WithPtr(d, p, k, v), o)
      && Place(WithPtr(d, p, k, v), Key(x, Sub(up, k))) == v
  {
    var p := Place(d, Key(x, up));
    assert Entry(d, o, p);
    forall b {:trigger o[b]} | b in o
      ensures ValidKey(d, o[b]) && Place(WithPtr(d, p, k, v), o[b]) == b
    {
      assert Entry(d, o, b);
      PtrPlace(d, o, x, up, k, v, o[b]);
    }
    PtrPlace(d, o, x, up, k, v, Key(x, up));
    PutPtrPtr(d.data[p], k, v, k);
  }

  // Writing to a block that is no index block of anybody.
  ghost predicate NoIndex(o: Owner, p: nat) {
    p in o ==> IsData(o[p].slot)
  }

  lemma {:induction false} DataPlace(d: Disk, o: Owner, p: nat, b: Block, key: Key)
    requires Sound(d, o) && NoIndex(o, p) && p < |d.data|
    requires ValidKey(d, key) && Owns(d, o, key.ino, key.slot)
    ensures Place(d.(data := d.data[p := b]), key) == Place(d, key)
    decreases key.slot
  {
    if key.slot.Sub? {
      var parent := Key(key.ino, key.slot.up);
      assert Entry(d, o, Place(d, key));
      DataPlace(d, o, p, b, parent);
      assert Place(d, parent) != p;
    }
  }

  lemma DataKeeps(d: Disk, o: Owner, p: nat, b: Block)
    requires Sound(d, o) && NoIndex(o, p) && p < |d.data|
    ensures SameSlots(d, d.(data := d.data[p := b]), o)
  {
    forall c {:trigger o[c]} | c in o
      ensures ValidKey(d, o[c]) && Place(d.(data := d.data[p := b]), o[c]) == c
    {
      assert Entry(d, o, c);
      DataPlace(d, o, p, b, o[c]);
    }
  }

  // A block comes to be owned.
  lemma AddOwner(d: Disk, o: Owner, x: nat, s: Slot, v: nat)
    requires Sound(d, o) && v !in o && v < |d.data|
    requires ValidKey(d, Key(x, s)) && Place(d, Key(x, s)) == v && (s.Sub? ==> Owns(d, o, x, s.up))
    ensures Sound(d, o[v := Key(x, s)]) && Owns(d, o[v := Key(x, s)], x, s)
    ensures forall y, t {:trigger Owns(d, o[v := Key(x, s)], y, t)} ::
      ValidKey(d, Key(y, t)) && Owns(d, o, y, t) ==> Owns(d, o[v := Key(x, s)], y, t)
  {
    var o' := o[v := Key(x, s)];
    forall b {:trigger o'[b]} | b in o'
      ensures Entry(d, o', b)
    {
      if b != v { assert Entry(d, o, b) && o'[b] == o[b]; }
    }
  }

  // o grows to o1 by blocks of x from file block n on.
  ghost predicate Extends(o: Owner, o1: Owner, x: nat, n: nat) {
    && (forall b {:trigger o[b]} {:trigger o1[b]} :: b in o ==> b in o1 && o1[b] == o[b])
    && (forall b {:trigger o1[b]} :: b in o1 && b !in o ==> o1[b].ino == x && Rank(o1[b].slot) >= n)
  }

  // o without the blocks of x from file block n on.
  function Trim(o: Owner, x: nat, n: nat): Owner {
    map b | b in o && !(o[b].ino == x && Rank(o[b].slot) >= n) :: o[b]
  }

  // Freeing what a growth added restores the ownership.
  lemma TrimExtends(o: Owner, o1: Owner, x: nat, n: nat)
    requires Extends(o, o1, x, n) && Bounded(o, x, n)
    ensures Trim(o1, x, n) == o
  {
    forall b ensures b in Trim(o1, x, n) <==> b in o {
      if b in o { assert o[b] == o1[b]; }
    }
  }

  lemma TrimMore(o: Owner, x: nat, n: nat, n1: nat)
    requires n <= n1
    ensures Trim(Trim(o, x, n1), x, n) == Trim(o, x, n)
  {
  }

  lemma TrimNothing(o: Owner, x: nat, n: nat)
    requires Bounded(o, x, n)
    ensures Trim(o, x, n) == o
  {
  }

  // A trimmed ownership is sound: a slot's index block never ranks above it.
  lemma TrimSound(d: Disk, o: Owner, x: nat, n: nat)
    requires Sound(d, o)
    ensures Sound(d, Trim(o, x, n))
    ensures x < |d.inodes| && Full(d, o, x, n) ==> Full(d, Trim(o, x, n), x, n)
  {
    var o' := Trim(o, x, n);
    forall b {:trigger o'[b]} | b in o'
      ensures Entry(d, o', b)
    {
      assert Entry(d, o, b);
      RankBound(o[b].slot);
    }
    if x < |d.inodes| && Full(d, o, x, n) {
      forall s {:trigger Owns(d, o', x, s)} | ValidSlot(s) && Rank(s) < n
        ensures Owns(d, o', x, s)
      {
        assert Owns(d, o, x, s);
      }
    }
  }

  lemma TrimOthers(d: Disk, o: Owner, x: nat, n: nat, y: nat, m: nat)
    requires y != x && y < |d.inodes| && Full(d, o, y, m)
    ensures Full(d, Trim(o, x, n), y, m)
  {
    var o' := Trim(o, x, n);
    forall s {:trigger Owns(d, o', y, s)} | ValidSlot(s) && Rank(s) < m
      ensures Owns(d, o', y, s)
    {
      assert Owns(d, o, y, s);
    }
  }

  // The blocks of x up to file block n.
  ghost function BlocksOf(o: Owner, x: nat, n: nat): set<nat> {
    set b | b in o && o[b].ino == x && Rank(o[b].slot) < n
  }

  lemma {:induction false} BlocksOfCount(d: Disk, o: Owner, x: nat, n: nat)
    requires Sound(d, o) && x < |d.inodes| && n <= MAX_BLOCKS && Full(d, o, x, n)
    ensures |BlocksOf(o, x, n)| == Count(n)
  {
    if n == 0 {
      assert BlocksOf(o, x, 0) == {};
    } else {
      BlocksOfCount(d, o, x, n - 1);
      BlocksOfStep(d, o, x, n - 1);
    }
  }

  // The slots of rank n, and the blocks they hold.
  function SlotsFor(n: nat): (ss: set<Slot>)
    requires n < MAX_BLOCKS
    ensures forall s :: s in ss ==> ValidSlot(s) && Rank(s) == n
    ensures |ss| == Cost(n)
  {
    DataSlotRank(n);
    if n >= 132 then
      IndexSlotRank(n);
      var middle := if NeedsMiddle(n) then {Middle(n)} else {};
      var double := if NeedsDouble(n) then {Top(5 + (n - 132) / 16384)} else {};
      {DataSlot(n)} + middle + double
    else if NeedsIndirect(n) then {DataSlot(n), Top(4)} else {DataSlot(n)}
  }

  lemma SlotsForAll(n: nat, s: Slot)
    requires n < MAX_BLOCKS
    ensures s in SlotsFor(n) <==> ValidSlot(s) && Rank(s) == n
  {
    if ValidSlot(s) && Rank(s) == n { SlotsOfRank(n, s); }
  }

  // Blocks that sit in owned slots of x are as many as the slots.
  lemma {:induction false} PlacesCount(d: Disk, o: Owner, x: nat, ss: set<Slot>, bs: set<nat>)
    requires Sound(d, o) && x < |d.inodes| && forall s :: s in ss ==> ValidSlot(s) && Owns(d, o, x, s)
    requires forall b :: b in bs <==> b in o && o[b].ino == x && o[b].slot in ss
    ensures |bs| == |ss|
    decreases ss
  {
    if ss == {} {
      assert bs == {};
    } else {
      var s :| s in ss;
      var b := Place(d, Key(x, s));
      assert o[b] == Key(x, s);
      forall c ensures c in bs - {b} <==> c in o && o[c].ino == x && o[c].slot in ss - {s} {
        if c in o && o[c] == Key(x, s) { assert Entry(d, o, c); }
      }
      PlacesCount(d, o, x, ss - {s}, bs - {b});
    }
  }

  lemma BlocksOfStep(d: Disk, o: Owner, x: nat, n: nat)
    requires Sound(d, o) && x < |d.inodes| && n < MAX_BLOCKS && Full(d, o, x, n + 1)
    ensures |BlocksOf(o, x, n + 1)| == |BlocksOf(o, x, n)| + Cost(n)
  {
    var added := set b | b in o && o[b].ino == x && Rank(o[b].slot) == n;
    forall b | b in o && o[b].ino == x ensures b in added <==> o[b].slot in SlotsFor(n) {
      assert Entry(d, o, b);
      SlotsForAll(n, o[b].slot);
    }
    PlacesCount(d, o, x, SlotsFor(n), added);
    assert BlocksOf(o, x, n + 1) == BlocksOf(o, x, n) + added && BlocksOf(o, x, n) !! added;
  }
}

// One file growing or shrinking by a block, as steps on the disk and its ownership.
module KtfsGrowth {
  import opened LittleEndian
  import opened KtfsLayout
  import opened KtfsOwners

  ghost predicate Absent(o: Owner, x: nat, s: Slot) {
    forall b {:trigger o[b]} :: b in o ==> o[b] != Key(x, s)
  }

  function Put(d: Disk, x: nat, s: Slot, v: Word): Disk
    requires ValidKey(d, Key(x, s)) && (s.Sub? ==> Place(d, Key(x, s.up)) < |d.data|)
  {
    match s
    case Top(f) => WithField(d, x, f, v)
    case Sub(up, k) => WithPtr(d, Place(d, Key(x, up)), k, v)
  }

  ghost predicate CanGrow(d: Disk, o: Owner, x: nat, s: Slot) {
    Sound(d, o) && ValidKey(d, Key(x, s)) && Absent(o, x, s) && (s.Sub? ==> Owns(d, o, x, s.up))
  }

  // Apart from x's pointers nothing changes: no other inode, no size, and no block but index blocks of x.
  ghost predicate Quiet(d: Disk, d1: Disk, o1: Owner, x: nat) {
    && |d1.data| == |d.data| && |d1.inodes| == |d.inodes|
    && (forall y :: 0 <= y < |d.inodes| ==>
          d1.inodes[y].size == d.inodes[y].size && (y != x ==> d1.inodes[y] == d.inodes[y]))
    && (forall b {:trigger d1.data[b]} :: 0 <= b < |d.data| ==>
          d1.data[b] == d.data[b] || (b in o1 && o1[b].ino == x && !IsData(o1[b].slot)))
  }

  // A file grows by slots of rank n up to, but not including, m.
  ghost predicate Growth(d: Disk, o: Owner, d1: Disk, o1: Owner, x: nat, n: nat, m: nat) {
    Sound(d1, o1) && Extends(o, o1, x, n) && Bounded(o1, x, m) && SameSlots(d, d1, o) && Quiet(d, d1, o1, x)
  }

  lemma GrowKeeps(d: Disk, o: Owner, x: nat, s: Slot, v: Word)
    requires CanGrow(d, o, x, s)
    requires s.Sub? ==> Place(d, Key(x, s.up)) < |d.data|
    ensures SameSlots(d, Put(d, x, s, v), o) && Place(Put(d, x, s, v), Key(x, s)) == v
  {
    match s
    case Top(f) => FieldKeeps(d, o, x, f, v);
    case Sub(up, k) => PtrKeeps(d, o, x, up, k, v);
  }

  lemma GrowStep(d: Disk, o: Owner, x: nat, s: Slot, v: Word, n: nat)
    requires CanGrow(d, o, x, s) && v !in o && v < |d.data| && Bounded(o, x, n + 1) && Rank(s) == n
    ensures s.Sub? ==> Place(d, Key(x, s.up)) < |d.data|
    ensures Growth(d, o, Put(d, x, s, v), o[v := Key(x, s)], x, n, n + 1)
    ensures Owns(Put(d, x, s, v), o[v := Key(x, s)], x, s)
  {
    if s.Sub? { assert Entry(d, o, Place(d, Key(x, s.up))); }
    GrowKeeps(d, o, x, s, v);
    var d1 := Put(d, x, s, v);
    SoundKept(d, d1, o);
    if s.Sub? { OwnsKept(d, d1, o, x, s.up); }
    AddOwner(d1, o, x, s, v);
    assert Quiet(d, d1, o[v := Key(x, s)], x);
  }

  lemma OwnsGrown(d: Disk, o: Owner, d1: Disk, o1: Owner, x: nat, n: nat, m: nat, y: nat, s: Slot)
    requires Growth(d, o, d1, o1, x, n, m) && ValidKey(d, Key(y, s)) && Owns(d, o, y, s)
    ensures Owns(d1, o1, y, s) && Place(d1, Key(y, s)) == Place(d, Key(y, s))
  {
    OwnsKept(d, d1, o, y, s);
  }

  lemma FullGrown(d: Disk, o: Owner, d1: Disk, o1: Owner, x: nat, n: nat, m: nat, y: nat, k: nat)
    requires Growth(d, o, d1, o1, x, n, m) && y < |d.inodes| && Full(d, o, y, k)
    ensures Full(d1, o1, y, k)
  {
    forall s {:trigger Owns(d1, o1, y, s)} | ValidSlot(s) && Rank(s) < k
      ensures Owns(d1, o1, y, s)
    {
      assert Owns(d, o, y, s);
      OwnsGrown(d, o, d1, o1, x, n, m, y, s);
    }
  }

  lemma GrowthMore(d: Disk, o: Owner, d1: Disk, o1: Owner, d2: Disk, o2: Owner, x: nat, n: nat, k: nat, m: nat)
    requires Growth(d, o, d1, o1, x, n, k) && Growth(d1, o1, d2, o2, x, n, m)
    ensures Growth(d, o, d2, o2, x, n, m)
  {
    assert SameSlots(d, d2, o);
    assert Quiet(d, d2, o2, x);
  }

  lemma GrowthFrom(d: Disk, o: Owner, d1: Disk, o1: Owner, x: nat, n: nat, n1: nat, m: nat)
    requires Growth(d, o, d1, o1, x, n1, m) && n <= n1
    ensures Growth(d, o, d1, o1, x, n, m)
  {
  }

  lemma FullNext(d: Disk, o: Owner, x: nat, n: nat)
    requires n < MAX_BLOCKS && x < |d.inodes| && Full(d, o, x, n)
    requires forall s :: s in SlotsFor(n) ==> Owns(d, o, x, s)
    ensures Full(d, o, x, n + 1)
  {
    forall s {:trigger Owns(d, o, x, s)} | ValidSlot(s) && Rank(s) < n + 1
      ensures Owns(d, o, x, s)
    {
      SlotsForAll(n, s);
    }
  }

  lemma AbsentAbove(o: Owner, x: nat, n: nat, s: Slot)
    requires Bounded(o, x, n) && Rank(s) >= n
    ensures Absent(o, x, s)
  {
  }

  lemma GrowthNone(d: Disk, o: Owner, x: nat, n: nat, m: nat)
    requires Sound(d, o) && Bounded(o, x, m)
    ensures Growth(d, o, d, o, x, n, m)
  {
    forall b {:trigger o[b]} | b in o ensures ValidKey(d, o[b]) && Place(d, o[b]) == b {
      assert Entry(d, o, b);
    }
  }

  // Once every slot of rank n is there, the file has n + 1 blocks.
  lemma FullAfter(d: Disk, o: Owner, d1: Disk, o1: Owner, x: nat, n: nat)
    requires n < MAX_BLOCKS && x < |d.inodes| && Full(d, o, x, n) && Growth(d, o, d1, o1, x, n, n + 1)
    requires forall s :: s in SlotsFor(n) ==> Owns(d1, o1, x, s)
    ensures Full(d1, o1, x, n + 1)
  {
    FullGrown(d, o, d1, o1, x, n, n + 1, x, n);
    FullNext(d1, o1, x, n);
  }

  // The blocks in the slots of rank n.
  ghost function Gone(d: Disk, x: nat, n: nat): set<nat>
    requires x < |d.inodes| && n < MAX_BLOCKS
  {
    Places(d, x, SlotsFor(n))
  }

  ghost function Places(d: Disk, x: nat, ss: set<Slot>): set<nat>
    requires x < |d.inodes| && forall s :: s in ss ==> ValidSlot(s)
  {
    set s | s in ss :: Place(d, Key(x, s))
  }

  lemma PlacesUnion(d: Disk, x: nat, a: set<Slot>, b: set<Slot>)
    requires x < |d.inodes| && forall s :: s in a + b ==> ValidSlot(s)
    ensures Places(d, x, a + b) == Places(d, x, a) + Places(d, x, b)
  {
  }

  lemma PlacesOne(d: Disk, x: nat, s: Slot, b: bool)
    requires x < |d.inodes| && ValidSlot(s)
    ensures Places(d, x, if b then {s} else {}) == if b then {Place(d, Key(x, s))} else {}
  {
  }

  // Taking them away trims the ownership at n.
  lemma TrimStep(d: Disk, o: Owner, x: nat, n: nat)
    requires Sound(d, o) && x < |d.inodes| && n < MAX_BLOCKS && FileOk(d, o, x, n + 1)
    ensures Gone(d, x, n) <= o.Keys && Trim(o, x, n).Keys == o.Keys - Gone(d, x, n)
    ensures Sound(d, Trim(o, x, n)) && FileOk(d, Trim(o, x, n), x, n)
  {
    var gone := Gone(d, x, n);
    forall s | s in SlotsFor(n) ensures Owns(d, o, x, s) {}
    forall b | b in o ensures b in gone <==> o[b].ino == x && Rank(o[b].slot) >= n {
      assert Entry(d, o, b);
      SlotsForAll(n, o[b].slot);
      if b in gone {
        var s :| s in SlotsFor(n) && b == Place(d, Key(x, s));
        assert Owns(d, o, x, s);
      }
    }
    TrimSound(d, o, x, n);
  }

  // Which blocks those are; the walk down to them stays on the volume.
  lemma GoneDirect(d: Disk, o: Owner, x: nat, n: nat)
    requires Sound(d, o) && x < |d.inodes| && n < 4 && Full(d, o, x, n + 1)
    ensures d.inodes[x].block[n] < |d.data|
    ensures Gone(d, x, n) == {d.inodes[x].block[n]}
  {
    assert SlotsFor(n) == {Top(n)};
    assert Owns(d, o, x, Top(n));
    PathOwned(d, o, x, n);
  }

  lemma GoneIndirect(d: Disk, o: Owner, x: nat, n: nat)
    requires Sound(d, o) && x < |d.inodes| && 4 <= n < 132 && Full(d, o, x, n + 1)
    ensures var p := d.inodes[x].indirect;
      p < |d.data| && Ptr(d.data[p], n - 4) < |d.data|
      && Gone(d, x, n) == {Ptr(d.data[p], n - 4)} + if NeedsIndirect(n) then {p} else {}
  {
    assert DataSlot(n) in SlotsFor(n);
    assert Owns(d, o, x, DataSlot(n));
    PathOwned(d, o, x, n);
  }

  lemma GoneDouble(d: Disk, o: Owner, x: nat, n: nat)
    requires Sound(d, o) && x < |d.inodes| && 132 <= n < MAX_BLOCKS && Full(d, o, x, n + 1)
    ensures var p := d.inodes[x].dindirect[(n - 132) / 16384];
      p < |d.data| && var q := Ptr(d.data[p], (n - 132) % 16384 / 128);
      q < |d.data| && var b := Ptr(d.data[q], (n - 132) % 16384 % 128);
      b < |d.data| && Gone(d, x, n)
        == {b} + (if NeedsMiddle(n) then {q} else {}) + (if NeedsDouble(n) then {p} else {})
  {
    DataSlotRank(n);
    assert Owns(d, o, x, DataSlot(n));
    PathOwned(d, o, x, n);
    DoublePlaces(d, x, n);
    GonePlaces(d, x, n);
  }

  // Where the path to a file block of the third tier leads.
  lemma DoublePlaces(d: Disk, x: nat, n: nat)
    requires x < |d.inodes| && 132 <= n < MAX_BLOCKS
    requires var p := d.inodes[x].dindirect[(n - 132) / 16384];
      p < |d.data| && Ptr(d.data[p], (n - 132) % 16384 / 128) < |d.data|
    ensures var p := d.inodes[x].dindirect[(n - 132) / 16384];
      var q := Ptr(d.data[p], (n - 132) % 16384 / 128);
      ValidSlot(Middle(n)) && Middle(n).Sub? && ValidSlot(Middle(n).up)
      && Place(d, Key(x, Middle(n).up)) == p && Place(d, Key(x, Middle(n))) == q
      && Place(d, Key(x, DataSlot(n))) == Ptr(d.data[q], (n - 132) % 16384 % 128)
  {
    IndexSlotRank(n);
  }

  lemma SlotsForThird(n: nat)
    requires 132 <= n < MAX_BLOCKS
    ensures Middle(n).Sub? && SlotsFor(n) == {DataSlot(n)}
      + (if NeedsMiddle(n) then {Middle(n)} else {}) + (if NeedsDouble(n) then {Middle(n).up} else {})
  {
    IndexSlotRank(n);
  }

  lemma GonePlaces(d: Disk, x: nat, n: nat)
    requires x < |d.inodes| && 132 <= n < MAX_BLOCKS
    ensures var up := Middle(n);
      ValidSlot(up) && up.Sub? && ValidSlot(up.up)
      && Gone(d, x, n) == {Place(d, Key(x, DataSlot(n)))}
        + (if NeedsMiddle(n) then {Place(d, Key(x, up))} else {})
        + (if NeedsDouble(n) then {Place(d, Key(x, up.up))} else {})
  {
    IndexSlotRank(n);
    var up := Middle(n);
    var middle := if NeedsMiddle(n) then {up} else {};
    var double := if NeedsDouble(n) then {up.up} else {};
    SlotsForThird(n);
    PlacesUnion(d, x, {DataSlot(n)} + middle, double);
    PlacesUnion(d, x, {DataSlot(n)}, middle);
    PlacesOne(d, x, DataSlot(n), true);
    PlacesOne(d, x, up, NeedsMiddle(n));
    PlacesOne(d, x, up.up, NeedsDouble(n));
  }

  lemma PathOwned(d: Disk, o: Owner, x: nat, n: nat)
    requires Sound(d, o) && x < |d.inodes| && n < MAX_BLOCKS && Owns(d, o, x, DataSlot(n))
    ensures Place(d, Key(x, DataSlot(n))) < |d.data|
    ensures 4 <= n < 132 ==> d.inodes[x].indirect < |d.data|
    ensures n >= 132 ==>
      var p := d.inodes[x].dindirect[(n - 132) / 16384];
      p < |d.data| && Ptr(d.data[p], (n - 132) % 16384 / 128) < |d.data|
  {
    assert Entry(d, o, Place(d, Key(x, DataSlot(n))));
    if n >= 4 {
      assert Entry(d, o, Place(d, Key(x, DataSlot(n).up)));
      if n >= 132 { assert Entry(d, o, Place(d, Key(x, DataSlot(n).up.up))); }
    }
  }
}
