// A mounted volume of sys/ktfs.c: inodes, data blocks and the two bitmaps, and how files gain and lose blocks.
// Blocks are read and written as on the plain disk; the block cache in between agrees with it (Cache.dfy).

module KtfsVolume {
  import opened Errors
  import opened LittleEndian
  import opened KtfsLayout
  import opened KtfsBitmap
  import opened KtfsOwners
  import opened KtfsGrowth

  // The set bits of the data bitmap are the owned blocks and those set aside.
  ghost predicate Accounted(bits: seq<bv8>, o: Owner, reserved: set<nat>) {
    Used(bits) == reserved + o.Keys && reserved !! o.Keys
  }

  class Volume {
    const dataBitmapBlocks: nat
    const inodeBitmapBlocks: nat
    const root: nat
    ghost const reserved: set<nat>
    ghost const reservedInodes: set<nat>

    var data: seq<Block>
    var inodes: seq<Inode>
    var dataBits: seq<bv8>
    var inodeBits: seq<bv8>
    ghost var owner: Owner
    ghost var live: set<nat>

    ghost function Img(): Disk
      reads this`data, this`inodes
    {
      Disk(data, inodes)
    }

    // The data bitmap is the ledger of the blocks.
    ghost predicate Balanced()
      reads this`data, this`dataBits, this`owner
    {
      && |dataBits| == 512 * dataBitmapBlocks
      && |data| <= 8 * |dataBits| && |data| <= 0x1_0000_0000
      && Accounted(dataBits, owner, reserved)
    }

    // The inode bitmap is the ledger of the inodes.
    ghost predicate InodesBalanced()
      reads this`inodes, this`inodeBits, this`live
    {
      && |inodeBits| == 512 * inodeBitmapBlocks
      && |inodes| <= 8 * |inodeBits| && |inodes| <= 0x1_0000
      && Used(inodeBits) == reservedInodes + live && reservedInodes !! live
    }

    ghost predicate Valid()
      reads this
    {
      Ok(Img(), owner, live) && Balanced() && InodesBalanced()
    }

    ghost function SpareBlocks(): set<nat>
      reads this`data, this`dataBits
    {
      Spare(dataBits, |data|)
    }

    // x has exactly its first n blocks.
    ghost predicate Holds(x: nat, n: nat)
      reads this`data, this`inodes, this`owner
    {
      Sound(Img(), owner) && x < |inodes| && FileOk(Img(), owner, x, n)
    }

    // allocateDataBlock. On a full volume the number is past its end, or -EINVAL as an unsigned number: it is never
    // negative, and so the callers' tests never see a failure.
    method AllocateDataBlock() returns (b: nat)
      requires Balanced()
      modifies this`dataBits
      ensures old(SpareBlocks()) != {} ==> b in old(SpareBlocks()) && dataBits == SetBit(old(dataBits), b)
      ensures old(SpareBlocks()) != {} ==> forall i: nat :: i < b ==> i in Used(old(dataBits))
      ensures old(SpareBlocks()) == {} ==> b >= |data| || b == 0x1_0000_0000 - EINVAL
    {
      var found;
      ghost var spare := SpareBlocks();
      assert spare != {} ==> exists k: nat :: k in spare;
      found, b, dataBits := FirstFit(dataBits, dataBitmapBlocks);
      if !found { b := 0x1_0000_0000 - EINVAL; }
    }

    // allocateInode, likewise
    method AllocateInode() returns (x: nat)
      requires InodesBalanced()
      modifies this`inodeBits
      ensures var spare := old(Spare(inodeBits, |inodes|));
        if spare != {} then x in spare && inodeBits == SetBit(old(inodeBits), x)
        else x >= |inodes| || x == 0x1_0000 - EINVAL
      ensures old(Spare(inodeBits, |inodes|)) != {} ==> forall i: nat :: i < x ==> i in Used(old(inodeBits))
    {
      var found;
      ghost var spare := Spare(inodeBits, |inodes|);
      assert spare != {} ==> exists k: nat :: k in spare;
      found, x, inodeBits := FirstFit(inodeBits, inodeBitmapBlocks);
      if !found { x := 0x1_0000 - EINVAL; }
    }

    method FreeDataBlock(index: nat)
      requires |dataBits| % 512 == 0 && index < 8 * |dataBits|
      modifies this`dataBits
      ensures |dataBits| == |old(dataBits)| && Used(dataBits) == Used(old(dataBits)) - {index}
    {
      SetBitUsed(dataBits, index);
      dataBits := ClearAt(dataBits, index);
    }

    // A fresh block for one of the inode's own fields.
    method TakeTop(x: nat, f: nat) returns (ghost v: nat)
      requires Balanced() && SpareBlocks() != {} && CanGrow(Img(), owner, x, Top(f))
      requires Bounded(owner, x, Rank(Top(f)) + 1)
      modifies this`inodes, this`dataBits, this`owner
      ensures Taken(old(Img()), old(owner), Img(), owner, x, Top(f), v)
      ensures Balanced() && |SpareBlocks()| == |old(SpareBlocks())| - 1
    {
      var b := AllocateDataBlock();
      GrowStep(Img(), owner, x, Top(f), b, Rank(Top(f)));
      LedgerTake(old(dataBits), owner, reserved, b, Key(x, Top(f)), |data|);
      inodes := inodes[x := SetField(inodes[x], f, b)];
      owner := owner[b := Key(x, Top(f))];
      v := b;
    }

    // A fresh block for word k of the index block p.
    method TakeSub(x: nat, p: nat, k: nat, ghost up: Slot) returns (ghost v: nat)
      requires Balanced() && SpareBlocks() != {} && CanGrow(Img(), owner, x, Sub(up, k))
      requires p == Place(Img(), Key(x, up)) && Bounded(owner, x, Rank(Sub(up, k)) + 1)
      modifies this`data, this`dataBits, this`owner
      ensures Taken(old(Img()), old(owner), Img(), owner, x, Sub(up, k), v)
      ensures Balanced() && |SpareBlocks()| == |old(SpareBlocks())| - 1
    {
      var b := AllocateDataBlock();
      GrowStep(Img(), owner, x, Sub(up, k), b, Rank(Sub(up, k)));
      LedgerTake(old(dataBits), owner, reserved, b, Key(x, Sub(up, k)), |data|);
      data := data[p := PutPtr(data[p], k, b)];
      owner := owner[b := Key(x, Sub(up, k))];
      v := b;
    }

    // The three tiers of allocateBlockFromInode. The n-th block of x, with the index blocks it is first to need.
    method AllocateDirect(x: nat, n: nat)
      requires Balanced() && Holds(x, n) && n < 4 && |SpareBlocks()| >= Cost(n)
      modifies this`data, this`inodes, this`dataBits, this`owner
      ensures Grew(old(Img()), old(owner), Img(), owner, x, n)
      ensures Balanced() && |SpareBlocks()| == |old(SpareBlocks())| - Cost(n)
    {
      AbsentAbove(owner, x, n, Top(n));
      ghost var v := TakeTop(x, n);
      FullAfter(old(Img()), old(owner), Img(), owner, x, n);
    }

    method AllocateIndirect(x: nat, n: nat)
      requires Balanced() && Holds(x, n) && 4 <= n < 132 && |SpareBlocks()| >= Cost(n)
      modifies this`data, this`inodes, this`dataBits, this`owner
      ensures Grew(old(Img()), old(owner), Img(), owner, x, n)
      ensures Balanced() && |SpareBlocks()| == |old(SpareBlocks())| - Cost(n)
    {
      StartIndirect(x, n);
      FinishIndirect(x, n, old(Img()), old(owner));
    }

    // the data block of the second tier
    method FinishIndirect(x: nat, n: nat, ghost d: Disk, ghost o: Owner)
      requires Balanced() && 4 <= n < 132 && x < |d.inodes| && x < |inodes| && SpareBlocks() != {}
      requires Full(d, o, x, n) && Growth(d, o, Img(), owner, x, n, n + 1)
      requires Owns(Img(), owner, x, Top(4)) && Absent(owner, x, DataSlot(n))
      modifies this`data, this`dataBits, this`owner
      ensures Grew(d, o, Img(), owner, x, n)
      ensures Balanced() && |SpareBlocks()| == |old(SpareBlocks())| - 1
    {
      IndirectReady(Img(), owner, x, n);
      ghost var v := TakeSub(x, inodes[x].indirect, n - 4, Top(4));
      FinishedIndirect(d, o, old(Img()), old(owner), Img(), owner, x, n, v);
    }

    // the index block of the second tier, if file block n is the first to need it
    method StartIndirect(x: nat, n: nat)
      requires Balanced() && Holds(x, n) && 4 <= n < 132 && SpareBlocks() != {}
      modifies this`data, this`inodes, this`dataBits, this`owner
      ensures Growth(old(Img()), old(owner), Img(), owner, x, n, n + 1) && x < |inodes|
      ensures Owns(Img(), owner, x, Top(4)) && Absent(owner, x, DataSlot(n))
      ensures Balanced() && |SpareBlocks()| == |old(SpareBlocks())| - if NeedsIndirect(n) then 1 else 0
    {
      if n - 4 == 0 {
        StartIndex(x, 4, n);
        AbsentStill(old(owner), owner, x, n, Top(4), DataSlot(n));
      } else {
        GrowthNone(Img(), owner, x, n, n + 1);
        AbsentAbove(owner, x, n, DataSlot(n));
      }
    }

    method AllocateDouble(x: nat, n: nat)
      requires Balanced() && Holds(x, n) && 132 <= n < MAX_BLOCKS && |SpareBlocks()| >= Cost(n)
      modifies this`data, this`inodes, this`dataBits, this`owner
      ensures Grew(old(Img()), old(owner), Img(), owner, x, n)
      ensures Balanced() && |SpareBlocks()| == |old(SpareBlocks())| - Cost(n)
    {
      IndexSlotRank(n);
      if (n - 132) % 16384 == 0 {
        StartIndex(x, 5 + (n - 132) / 16384, n);
        AbsentStill(old(owner), owner, x, n, Middle(n).up, Middle(n));
        AbsentStill(old(owner), owner, x, n, Middle(n).up, DataSlot(n));
      } else {
        GrowthNone(Img(), owner, x, n, n + 1);
        if NeedsMiddle(n) { AbsentAbove(owner, x, n, Middle(n)); }
        AbsentAbove(owner, x, n, DataSlot(n));
      }
      StartMiddle(x, n, old(Img()), old(owner));
      FinishDouble(x, n, old(Img()), old(owner));
    }

    // the second-level index block, if file block n is the first to need it
    method StartMiddle(x: nat, n: nat, ghost d: Disk, ghost o: Owner)
      requires Balanced() && 132 <= n < MAX_BLOCKS && SpareBlocks() != {}
      requires Started(d, o, Img(), owner, x, n) && Absent(owner, x, DataSlot(n))
      requires NeedsMiddle(n) ==> Absent(owner, x, Middle(n))
      modifies this`data, this`dataBits, this`owner
      ensures Started(d, o, Img(), owner, x, n) && Absent(owner, x, DataSlot(n))
      ensures Owns(Img(), owner, x, Middle(n))
      ensures Balanced() && |SpareBlocks()| == |old(SpareBlocks())| - if NeedsMiddle(n) then 1 else 0
    {
      IndexSlotRank(n);
      if (n - 132) % 16384 % 128 == 0 {
        ghost var v := TakeSub(x, inodes[x].dindirect[(n - 132) / 16384], (n - 132) % 16384 / 128, Middle(n).up);
        GrowthMore(d, o, old(Img()), old(owner), Img(), owner, x, n, n + 1, n + 1);
        OwnsGrown(old(Img()), old(owner), Img(), owner, x, n, n + 1, x, Middle(n).up);
      } else {
        assert Owns(d, o, x, Middle(n));
        OwnsGrown(d, o, Img(), owner, x, n, n + 1, x, Middle(n));
      }
    }

    // the data block itself
    method FinishDouble(x: nat, n: nat, ghost d: Disk, ghost o: Owner)
      requires Balanced() && 132 <= n < MAX_BLOCKS && SpareBlocks() != {}
      requires Started(d, o, Img(), owner, x, n) && Absent(owner, x, DataSlot(n)) && Owns(Img(), owner, x, Middle(n))
      modifies this`data, this`dataBits, this`owner
      ensures Grew(d, o, Img(), owner, x, n)
      ensures Balanced() && |SpareBlocks()| == |old(SpareBlocks())| - 1
    {
      IndexSlotRank(n);
      DataSlotRank(n);
      var p := inodes[x].dindirect[(n - 132) / 16384];
      assert Entry(Img(), owner, p);
      var q := Ptr(data[p], (n - 132) % 16384 / 128);
      ghost var v := TakeSub(x, q, (n - 132) % 16384 % 128, Middle(n));
      Finished(d, o, old(Img()), old(owner), Img(), owner, x, n, v);
    }

    // allocateBlockFromInode
    method AllocateBlockFromInode(x: nat, n: nat) returns (rc: int)
      requires Balanced() && Holds(x, n) && (n < MAX_BLOCKS ==> |SpareBlocks()| >= Cost(n))
      modifies this`data, this`inodes, this`dataBits, this`owner
      ensures rc == if n < MAX_BLOCKS then 0 else -EINVAL
      ensures rc == 0 ==> Grew(old(Img()), old(owner), Img(), owner, x, n)
      ensures rc == 0 ==> Balanced() && |SpareBlocks()| == |old(SpareBlocks())| - Cost(n)
      ensures rc != 0 ==> unchanged(this)
    {
      if n < 4 {
        AllocateDirect(x, n);
      } else if n < 132 {
        AllocateIndirect(x, n);
      } else if n < MAX_BLOCKS {
        AllocateDouble(x, n);
      } else {
        return -EINVAL;
      }
      rc := 0;
    }

    // The three tiers of freeBlockFromInode: the last block of x, and the index blocks only it needed.
    method FreeDirect(x: nat, n: nat)
      requires Balanced() && Holds(x, n + 1) && n < 4
      modifies this`dataBits, this`owner
      ensures Balanced() && Holds(x, n) && owner == Trim(old(owner), x, n)
    {
      GoneDirect(Img(), owner, x, n);
      FreeDataBlock(inodes[x].block[n]);
      LedgerTrim(Img(), owner, x, n, old(dataBits), dataBits, reserved);
      owner := Trim(owner, x, n);
    }

    method FreeIndirect(x: nat, n: nat)
      requires Balanced() && Holds(x, n + 1) && 4 <= n < 132
      modifies this`dataBits, this`owner
      ensures Balanced() && Holds(x, n) && owner == Trim(old(owner), x, n)
    {
      GoneIndirect(Img(), owner, x, n);
      var p := inodes[x].indirect;
      ClearIndirect(Ptr(data[p], n - 4), p, n);
      LedgerTrim(Img(), owner, x, n, old(dataBits), dataBits, reserved);
      owner := Trim(owner, x, n);
    }

    method ClearIndirect(b: nat, p: nat, n: nat)
      requires |dataBits| % 512 == 0 && b < 8 * |dataBits| && p < 8 * |dataBits| && 4 <= n
      modifies this`dataBits
      ensures |dataBits| == |old(dataBits)|
      ensures Used(dataBits) == Used(old(dataBits)) - ({b} + if NeedsIndirect(n) then {p} else {})
    {
      FreeDataBlock(b);
      if n - 4 == 0 { FreeDataBlock(p); }
    }

    method FreeDouble(x: nat, n: nat)
      requires Balanced() && Holds(x, n + 1) && 132 <= n < MAX_BLOCKS
      modifies this`dataBits, this`owner
      ensures Balanced() && Holds(x, n) && owner == Trim(old(owner), x, n)
    {
      GoneDouble(Img(), owner, x, n);
      var p := inodes[x].dindirect[(n - 132) / 16384];
      var q := Ptr(data[p], (n - 132) % 16384 / 128);
      ClearDouble(Ptr(data[q], (n - 132) % 16384 % 128), q, p, n);
      LedgerTrim(Img(), owner, x, n, old(dataBits), dataBits, reserved);
      owner := Trim(owner, x, n);
    }

    method ClearDouble(b: nat, q: nat, p: nat, n: nat)
      requires |dataBits| % 512 == 0 && b < 8 * |dataBits| && q < 8 * |dataBits| && p < 8 * |dataBits| && 132 <= n
      modifies this`dataBits
      ensures |dataBits| == |old(dataBits)|
      ensures Used(dataBits) == Used(old(dataBits))
        - ({b} + (if NeedsMiddle(n) then {q} else {}) + (if NeedsDouble(n) then {p} else {}))
    {
      FreeDataBlock(b);
      if (n - 132) % 16384 % 128 == 0 { FreeDataBlock(q); }
      if (n - 132) % 16384 == 0 { FreeDataBlock(p); }
    }

    // freeBlockFromInode
    method FreeBlockFromInode(x: nat, n: nat) returns (rc: int)
      requires Balanced() && (n < MAX_BLOCKS ==> Holds(x, n + 1))
      modifies this`dataBits, this`owner
      ensures rc == if n < MAX_BLOCKS then 0 else -EINVAL
      ensures rc == 0 ==> Balanced() && Holds(x, n) && owner == Trim(old(owner), x, n)
      ensures rc != 0 ==> unchanged(this)
    {
      if n < 4 {
        FreeDirect(x, n);
      } else if n < 132 {
        FreeIndirect(x, n);
      } else if n < MAX_BLOCKS {
        FreeDouble(x, n);
      } else {
        return -EINVAL;
      }
      rc := 0;
    }

    // the first index block under a field of the inode
    method StartIndex(x: nat, f: nat, n: nat)
      requires Balanced() && Holds(x, n) && 4 <= f < 7 && Rank(Top(f)) == n && SpareBlocks() != {}
      modifies this`data, this`inodes, this`dataBits, this`owner
      ensures Growth(old(Img()), old(owner), Img(), owner, x, n, n + 1)
      ensures Owns(Img(), owner, x, Top(f)) && OnlyIndex(old(owner), owner, x, Top(f))
      ensures Balanced() && |SpareBlocks()| == |old(SpareBlocks())| - 1
    {
      AbsentAbove(owner, x, n, Top(f));
      ghost var v := TakeTop(x, f);
    }
  }

  // o1 has at most slot s of x more than o.
  ghost predicate OnlyIndex(o: Owner, o1: Owner, x: nat, s: Slot) {
    forall b {:trigger o1[b]} :: b in o1 ==> (b in o && o1[b] == o[b]) || o1[b] == Key(x, s)
  }

  lemma AbsentStill(o: Owner, o1: Owner, x: nat, n: nat, s: Slot, t: Slot)
    requires Bounded(o, x, n) && Rank(t) >= n && s != t && OnlyIndex(o, o1, x, s)
    ensures Absent(o1, x, t)
  {
    forall b {:trigger o1[b]} | b in o1 ensures o1[b] != Key(x, t) {
      if b in o && o1[b] == o[b] {}
    }
  }

  // Halfway through gaining the n-th block: the outer index block of a double-indirect block is there.
  ghost predicate Started(d: Disk, o: Owner, d1: Disk, o1: Owner, x: nat, n: nat)
    requires 132 <= n < MAX_BLOCKS
  {
    && x < |d.inodes| && FileOk(d, o, x, n)
    && Growth(d, o, d1, o1, x, n, n + 1)
    && ValidSlot(Middle(n).up) && Owns(d1, o1, x, Middle(n).up)
  }

  // All slots of rank n are owned if the path to file block n is.
  lemma SlotsOwned(d: Disk, o: Owner, x: nat, n: nat)
    requires x < |d.inodes| && n < MAX_BLOCKS && Owns(d, o, x, DataSlot(n))
    requires n >= 4 ==> Owns(d, o, x, DataSlot(n).up)
    requires n >= 132 ==> Owns(d, o, x, DataSlot(n).up.up)
    ensures forall s :: s in SlotsFor(n) ==> Owns(d, o, x, s)
  {
    if n >= 132 { IndexSlotRank(n); }
  }

  lemma IndirectReady(d: Disk, o: Owner, x: nat, n: nat)
    requires 4 <= n < 132 && Sound(d, o) && ValidKey(d, Key(x, Top(4))) && Owns(d, o, x, Top(4))
    requires Absent(o, x, DataSlot(n)) && Bounded(o, x, n + 1)
    ensures DataSlot(n) == Sub(Top(4), n - 4) && Rank(DataSlot(n)) == n && CanGrow(d, o, x, DataSlot(n))
    ensures Place(d, Key(x, Top(4))) == d.inodes[x].indirect
  {
    DataSlotRank(n);
  }

  lemma FinishedIndirect(d: Disk, o: Owner, d1: Disk, o1: Owner, d2: Disk, o2: Owner, x: nat, n: nat, v: nat)
    requires 4 <= n < 132 && x < |d.inodes| && Full(d, o, x, n) && Growth(d, o, d1, o1, x, n, n + 1)
    requires Owns(d1, o1, x, Top(4)) && Taken(d1, o1, d2, o2, x, DataSlot(n), v)
    ensures Grew(d, o, d2, o2, x, n)
  {
    DataSlotRank(n);
    GrowthMore(d, o, d1, o1, d2, o2, x, n, n + 1, n + 1);
    OwnsGrown(d1, o1, d2, o2, x, n, n + 1, x, Top(4));
    SlotsOwned(d2, o2, x, n);
    FullAfter(d, o, d2, o2, x, n);
  }

  lemma Finished(d: Disk, o: Owner, d1: Disk, o1: Owner, d2: Disk, o2: Owner, x: nat, n: nat, v: nat)
    requires 132 <= n < MAX_BLOCKS && Started(d, o, d1, o1, x, n) && Owns(d1, o1, x, Middle(n))
    requires Rank(DataSlot(n)) == n && Taken(d1, o1, d2, o2, x, DataSlot(n), v)
    ensures Grew(d, o, d2, o2, x, n)
  {
    GrowthMore(d, o, d1, o1, d2, o2, x, n, n + 1, n + 1);
    OwnsGrown(d1, o1, d2, o2, x, n, n + 1, x, Middle(n));
    OwnsGrown(d1, o1, d2, o2, x, n, n + 1, x, Middle(n).up);
    SlotsOwned(d2, o2, x, n);
    FullAfter(d, o, d2, o2, x, n);
  }

  // x has grown from start to n blocks.
  ghost predicate GrownTo(d: Disk, o: Owner, d1: Disk, o1: Owner, x: nat, start: nat, n: nat) {
    Growth(d, o, d1, o1, x, start, n) && x < |d1.inodes| && Full(d1, o1, x, n)
  }

  // x has gained its n-th block.
  ghost predicate Grew(d: Disk, o: Owner, d1: Disk, o1: Owner, x: nat, n: nat) {
    GrownTo(d, o, d1, o1, x, n, n + 1)
  }

  // Clearing the bits of what a trim gives up.
  lemma LedgerTrim(d: Disk, o: Owner, x: nat, n: nat, bits: seq<bv8>, bits1: seq<bv8>, reserved: set<nat>)
    requires Sound(d, o) && x < |d.inodes| && n < MAX_BLOCKS && FileOk(d, o, x, n + 1)
    requires Accounted(bits, o, reserved) && Used(bits1) == Used(bits) - Gone(d, x, n)
    ensures Accounted(bits1, Trim(o, x, n), reserved)
    ensures Sound(d, Trim(o, x, n)) && FileOk(d, Trim(o, x, n), x, n)
  {
    TrimStep(d, o, x, n);
  }

  // One slot of x has come to hold the fresh block v.
  ghost predicate Taken(d: Disk, o: Owner, d1: Disk, o1: Owner, x: nat, s: Slot, v: nat) {
    && v !in o && o1 == o[v := Key(x, s)]
    && Growth(d, o, d1, o1, x, Rank(s), Rank(s) + 1)
    && ValidKey(d1, Key(x, s)) && Owns(d1, o1, x, s)
  }

  lemma LedgerTake(bits: seq<bv8>, o: Owner, reserved: set<nat>, b: nat, key: Key, n: nat)
    requires Accounted(bits, o, reserved) && b < 8 * |bits| && b in Spare(bits, n)
    ensures b !in o && b < n
    ensures Accounted(SetBit(bits, b), o[b := key], reserved)
    ensures |Spare(SetBit(bits, b), n)| == |Spare(bits, n)| - 1
  {
    SpareAfterSet(bits, b, n);
    SetBitUsed(bits, b);
  }
}
