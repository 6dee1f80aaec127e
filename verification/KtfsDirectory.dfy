// ktfs_create and ktfs_delete of sys/ktfs.c, with the directory lookups.

module KtfsDirectory {
  import opened Errors
  import opened LittleEndian
  import opened Sequences
  import opened KtfsLayout
  import opened KtfsBitmap
  import opened KtfsOwners
  import opened KtfsGrowth
  import opened KtfsContent
  import opened KtfsChanges
  import opened KtfsDirSpec
  import opened KtfsVolume
  import KtfsFiles

  ghost predicate HasRoot(vol: Volume)
    reads vol`data, vol`inodes, vol`live
  {
    vol.root in vol.live && Sized(vol.Img(), vol.root) && vol.inodes[vol.root].size % DENSZ == 0
  }

  ghost function RootDir(vol: Volume): seq<Dentry>
    requires HasRoot(vol)
    reads vol`data, vol`inodes, vol`live
  {
    Dir(Content(vol.Img(), vol.root))
  }

  // The inodes in use are the root's and those of the directory's entries.
  ghost predicate DirInv(vol: Volume)
    reads vol
  {
    && vol.Valid() && HasRoot(vol) && DirOk(RootDir(vol))
    && vol.live == {vol.root} + Inos(RootDir(vol)) && vol.root !in Inos(RootDir(vol))
  }

  // getDentryBlockWithIndex, and the entry in that block
  method ReadEntry(vol: Volume, e: nat) returns (rc: int, entry: Dentry)
    requires vol.Valid() && HasRoot(vol) && e < |RootDir(vol)|
    ensures rc == 0 && entry == RootDir(vol)[e]
  {
    BlockOfEntry(e);
    var ok, bytes := KtfsFiles.ReadSlice(vol, vol.root, e / 32, e % 32 * DENSZ, DENSZ);
    entry := DentryOf(bytes);
    rc := if ok then 0 else -ENOENT;
  }

  // getDentryWithName and getDentryBlockWithName
  method Lookup(vol: Volume, name: seq<Byte>) returns (rc: int, e: nat, entry: Dentry)
    requires vol.Valid() && HasRoot(vol)
    ensures e == Find(RootDir(vol), name)
    ensures rc == if e < |RootDir(vol)| then 0 else -ENOENT
    ensures rc == 0 ==> entry == RootDir(vol)[e]
  {
    var count := vol.inodes[vol.root].size / DENSZ;
    ghost var dir := RootDir(vol);
    e := 0;
    while e < count
      invariant e <= count == |dir| && e <= Find(dir, name)
    {
      rc, entry := ReadEntry(vol, e);
      FindAt(dir, name, e);
      if rc != 0 { return; }
      if name == entry.name { return; }
      e := e + 1;
    }
    rc, entry := -ENOENT, Dentry(0, []);
  }

  // The search up to e has found nothing; it ends at e exactly if the name is there.
  lemma FindAt(dir: seq<Dentry>, name: seq<Byte>, e: nat)
    requires e < |dir| && e <= Find(dir, name)
    ensures if dir[e].name == name then Find(dir, name) == e else e < Find(dir, name)
  {
  }

  lemma FirstIs(dir: seq<Dentry>, name: seq<Byte>, e: nat)
    requires e <= |dir| && (e < |dir| ==> dir[e].name == name)
    requires forall k :: 0 <= k < e ==> dir[k].name != name
    ensures Find(dir, name) == e
  {
  }

  lemma BlockOfEntry(e: nat)
    ensures 512 * (e / 32) + e % 32 * DENSZ == DENSZ * e && e % 32 * DENSZ + DENSZ <= 512
  {
  }

  // Bytes were written into x at pos, and nothing else into any file.
  ghost predicate Wrote(d: Disk, d1: Disk, live: set<nat>, x: nat, pos: nat, bytes: seq<Byte>) {
    Sized(d, x) && Sized(d1, x) && OthersSame(d, d1, live, x) && Overwritten(Content(d, x), Content(d1, x), pos, bytes)
  }

  // Writes bytes into entry e from its byte off on.
  method WriteEntry(vol: Volume, e: nat, off: nat, bytes: seq<Byte>) returns (rc: int)
    requires vol.Valid() && HasRoot(vol) && e < |RootDir(vol)| && 0 < |bytes| && off + |bytes| <= DENSZ
    modifies vol`data
    ensures rc == 0 && vol.Valid() && HasRoot(vol) && |vol.data| == |old(vol.data)|
    ensures Wrote(old(vol.Img()), vol.Img(), vol.live, vol.root, DENSZ * e + off, bytes)
  {
    BlockOfEntry(e);
    rc := WriteAt(vol, vol.root, e / 32, e % 32 * DENSZ + off, bytes);
  }

  // Writes bytes at byte off of file block n of x.
  method WriteAt(vol: Volume, x: nat, n: nat, off: nat, bytes: seq<Byte>) returns (rc: int)
    requires vol.Valid() && x in vol.live && 0 < |bytes| && off + |bytes| <= 512
    requires 512 * n + off + |bytes| <= vol.inodes[x].size
    modifies vol`data
    ensures rc == 0 && vol.Valid() && Wrote(old(vol.Img()), vol.Img(), vol.live, x, 512 * n + off, bytes)
    ensures |vol.data| == |old(vol.data)|
  {
    BlockOwned(vol.Img(), vol.owner, vol.live, x, n, off);
    EntryStored(vol.Img(), vol.owner, vol.live, x, 512 * n + off, bytes, n, off);
    rc := PatchBlock(vol, x, n, off, bytes);
  }

  // The volume with bytes at byte off of file block n of x.
  ghost function Patched(d: Disk, x: nat, n: nat, off: nat, bytes: seq<Byte>): Disk
    requires x < |d.inodes| && n < MAX_BLOCKS && Place(d, Key(x, DataSlot(n))) < |d.data| && off + |bytes| <= BLKSZ
  {
    var b := Place(d, Key(x, DataSlot(n)));
    d.(data := d.data[b := Patch(d.data[b], off, bytes)])
  }

  // memcpy into the block that the tiers lead to
  method PatchBlock(vol: Volume, x: nat, n: nat, off: nat, bytes: seq<Byte>) returns (rc: int)
    requires vol.Valid() && x < |vol.inodes| && n < MAX_BLOCKS && Owns(vol.Img(), vol.owner, x, DataSlot(n))
    requires Place(vol.Img(), Key(x, DataSlot(n))) < |vol.data| && off + |bytes| <= BLKSZ
    requires Ok(Patched(vol.Img(), x, n, off, bytes), vol.owner, vol.live)
    modifies vol`data
    ensures rc == 0 && vol.Valid() && vol.Img() == Patched(old(vol.Img()), x, n, off, bytes)
  {
    var ok, b := KtfsFiles.FindBlock(vol, x, n);
    if !ok { return -ENOENT; }
    vol.data := vol.data[b := Patch(vol.data[b], off, bytes)];
    rc := 0;
  }

  lemma BlockOwned(d: Disk, o: Owner, live: set<nat>, x: nat, n: nat, off: nat)
    requires Ok(d, o, live) && x in live && off < BLKSZ && BLKSZ * n + off < d.inodes[x].size
    ensures n < MAX_BLOCKS && Owns(d, o, x, DataSlot(n))
  {
    ByteInBlock(d, o, live, x, n, off);
  }

  lemma EntryStored(d: Disk, o: Owner, live: set<nat>, x: nat, pos: nat, bytes: seq<Byte>, n: nat, at: nat)
    requires Ok(d, o, live) && x in live && pos + |bytes| <= d.inodes[x].size
    requires n < MAX_BLOCKS && at + |bytes| <= BLKSZ && pos == BLKSZ * n + at && Owns(d, o, x, DataSlot(n))
    ensures Place(d, Key(x, DataSlot(n))) < |d.data|
    ensures var d1 := Patched(d, x, n, at, bytes); Ok(d1, o, live) && Wrote(d, d1, live, x, pos, bytes)
  {
    assert Entry(d, o, Place(d, Key(x, DataSlot(n))));
    var d1 := Patched(d, x, n, at, bytes);
    assert bytes[0..0 + |bytes|] == bytes;
    StoredMore(d, d, o, live, d1, x, pos, bytes, 0, n, at, |bytes|);
    StoredOthers(d, d1, live, x, pos, bytes);
    forall p {:trigger Content(d1, x)[p]} | 0 <= p < d.inodes[x].size
      ensures Content(d1, x)[p] == if pos <= p < pos + |bytes| then bytes[p - pos] else Content(d, x)[p]
    {
      assert Content(d1, x)[p] == ByteAt(d1, x, p);
    }
  }

  // allocateInode, and the new inode's size
  method NewInode(vol: Volume) returns (x: nat)
    requires vol.Valid() && Spare(vol.inodeBits, |vol.inodes|) != {}
    modifies vol`inodeBits, vol`inodes, vol`live
    ensures vol.Valid() && x < |old(vol.inodes)| && x !in old(vol.live) && vol.live == old(vol.live) + {x}
    ensures vol.Img() == WithSize(old(vol.Img()), x, 0)
    ensures OthersSame(old(vol.Img()), vol.Img(), old(vol.live), x)
    ensures Used(vol.inodeBits) == Used(old(vol.inodeBits)) + {x}
    ensures x !in Used(old(vol.inodeBits)) && forall i: nat :: i < x ==> i in Used(old(vol.inodeBits))
  {
    x := vol.AllocateInode();
    SetBitUsed(old(vol.inodeBits), x);
    OkNewInode(vol.Img(), vol.owner, vol.live, x);
    vol.inodes := vol.inodes[x := vol.inodes[x].(size := 0)];
    vol.live := vol.live + {x};
  }

  // Room for one more entry, as ktfs_create makes it.
  method GrowRoot(vol: Volume, ghost count: nat) returns (rc: int)
    requires vol.Valid() && vol.root in vol.live && vol.inodes[vol.root].size == DENSZ * count && count < 0x1_0000
    requires |vol.SpareBlocks()| >= RootCost(count)
    modifies vol`data, vol`inodes, vol`dataBits, vol`owner
    ensures rc == 0 && vol.Valid()
    ensures RootGrew(old(vol.Img()), old(vol.owner), vol.live, vol.root, count, vol.Img(), vol.owner)
    ensures |vol.SpareBlocks()| == |old(vol.SpareBlocks())| - RootCost(count)
  {
    ghost var d, o := vol.Img(), vol.owner;
    RootBlocks(count);
    rc := Stretch(vol, vol.root, count);
    RootGrown(d, o, vol.live, vol.root, count, vol.Img(), vol.owner);
  }

  // The new size, then the block that goes with it.
  method Stretch(vol: Volume, x: nat, ghost count: nat) returns (rc: int)
    requires vol.Balanced() && vol.Holds(x, Blocks(DENSZ * count)) && vol.inodes[x].size == DENSZ * count
    requires count < 0x1_0000 && |vol.SpareBlocks()| >= RootCost(count)
    modifies vol`data, vol`inodes, vol`dataBits, vol`owner
    ensures rc == 0 && vol.Balanced() && x < |vol.inodes|
    ensures Growth(WithSize(old(vol.Img()), x, DENSZ * count + DENSZ), old(vol.owner), vol.Img(), vol.owner, x,
                   Blocks(DENSZ * count), Blocks(DENSZ * count + DENSZ))
    ensures Full(vol.Img(), vol.owner, x, Blocks(DENSZ * count + DENSZ))
    ensures |vol.SpareBlocks()| == |old(vol.SpareBlocks())| - RootCost(count)
  {
    SizeRecorded(vol.Img(), vol.owner, x, DENSZ * count + DENSZ, Blocks(DENSZ * count));
    vol.inodes := vol.inodes[x := vol.inodes[x].(size := vol.inodes[x].size + DENSZ)];
    var last := vol.inodes[x].size / DENSZ - 1;
    assert last == count;
    rc := EntryBlock(vol, x, last);
  }

  // The directory of count entries has room for one more; the old entries and the other files are as they were.
  ghost predicate RootGrew(d: Disk, o: Owner, live: set<nat>, x: nat, count: nat, d2: Disk, o2: Owner) {
    && OthersSame(d, d2, live, x) && Sized(d, x) && Sized(d2, x)
    && Content(d, x) <= Content(d2, x) && |Content(d2, x)| == DENSZ * count + DENSZ
    && Extends(o, o2, x, Blocks(DENSZ * count))
  }

  // The block for entry number last, if that is the first in its block.
  method EntryBlock(vol: Volume, x: nat, last: nat) returns (rc: int)
    requires vol.Balanced() && vol.Holds(x, Blocks(DENSZ * last)) && last < 0x1_0000
    requires |vol.SpareBlocks()| >= RootCost(last)
    modifies vol`data, vol`inodes, vol`dataBits, vol`owner
    ensures rc == 0 && vol.Balanced() && x < |vol.inodes| && Full(vol.Img(), vol.owner, x, Blocks(DENSZ * last + DENSZ))
    ensures Growth(old(vol.Img()), old(vol.owner), vol.Img(), vol.owner, x,
                   Blocks(DENSZ * last), Blocks(DENSZ * last + DENSZ))
    ensures |vol.SpareBlocks()| == |old(vol.SpareBlocks())| - RootCost(last)
  {
    RootBlocks(last);
    if last % 32 == 0 {
      rc := vol.AllocateBlockFromInode(x, last / 32);
      if rc != 0 { return; }
    } else {
      GrowthNone(vol.Img(), vol.owner, x, Blocks(DENSZ * last), Blocks(DENSZ * last));
    }
    rc := 0;
  }

  lemma RootGrown(d: Disk, o: Owner, live: set<nat>, x: nat, count: nat, d2: Disk, o2: Owner)
    requires Ok(d, o, live) && x in live && d.inodes[x].size == DENSZ * count
    requires Blocks(DENSZ * count + DENSZ) <= MAX_BLOCKS
    requires Growth(WithSize(d, x, DENSZ * count + DENSZ), o, d2, o2, x,
                    Blocks(DENSZ * count), Blocks(DENSZ * count + DENSZ))
    requires Full(d2, o2, x, Blocks(DENSZ * count + DENSZ))
    ensures Ok(d2, o2, live) && RootGrew(d, o, live, x, count, d2, o2)
  {
    OkSizedGrown(d, o, live, x, DENSZ * count + DENSZ, d2, o2);
    SizedGrownContent(d, o, live, x, DENSZ * count + DENSZ, d2, o2);
  }

  lemma SizeRecorded(d: Disk, o: Owner, x: nat, size: nat, n: nat)
    requires Sound(d, o) && x < |d.inodes| && FileOk(d, o, x, n)
    ensures Sound(WithSize(d, x, size), o) && FileOk(WithSize(d, x, size), o, x, n)
  {
    SizeKeeps(d, o, x, size);
    SoundKept(d, WithSize(d, x, size), o);
    FullKept(d, WithSize(d, x, size), o, x, n);
  }

  // The blocks that the next entry costs a directory of n entries.
  function RootCost(n: nat): nat {
    if n % 32 == 0 then Cost(n / 32) else 0
  }

  lemma RootBlocks(n: nat)
    ensures Blocks(DENSZ * n) == (n + 31) / 32
    ensures n % 32 == 0 ==> Blocks(DENSZ * n) == n / 32 && Blocks(DENSZ * n + DENSZ) == n / 32 + 1
    ensures n % 32 != 0 ==> Blocks(DENSZ * n + DENSZ) == Blocks(DENSZ * n)
    ensures n <= 0x1_0000 ==> Blocks(DENSZ * n) <= MAX_BLOCKS && n / 32 < MAX_BLOCKS
  {
  }

  // What ktfs_create makes of the volume: one more entry, for a fresh empty inode x; no other file changes.
  ghost predicate Created(d: Disk, o: Owner, live: set<nat>, dir: seq<Dentry>, d1: Disk, o1: Owner, live1: set<nat>,
      dir1: seq<Dentry>, root: nat, x: nat, name: seq<Byte>)
  {
    && dir1 == dir + [Dentry(x, name)]
    && x !in live && live1 == live + {x} && x < |d1.inodes| && d1.inodes[x].size == 0
    && OthersSame(d, d1, live, root)
    && Extends(o, o1, root, Blocks(DENSZ * |dir|))
  }

  // ktfs_create
  method Create(vol: Volume, name: seq<Byte>) returns (rc: int, ghost x: nat)
    requires DirInv(vol) && ValidName(name) && Spare(vol.inodeBits, |vol.inodes|) != {}
    requires |vol.SpareBlocks()| >= RootCost(|RootDir(vol)|)
    modifies vol`data, vol`inodes, vol`dataBits, vol`inodeBits, vol`owner, vol`live
    ensures DirInv(vol)
    ensures rc == if Has(old(RootDir(vol)), name) then -EINVAL else 0
    ensures rc != 0 ==> unchanged(vol)
    ensures rc == 0 ==> Created(old(vol.Img()), old(vol.owner), old(vol.live), old(RootDir(vol)),
                                vol.Img(), vol.owner, vol.live, RootDir(vol), vol.root, x, name)
    ensures rc == 0 ==> |vol.SpareBlocks()| == |old(vol.SpareBlocks())| - RootCost(|old(RootDir(vol))|)
    ensures rc == 0 ==> Used(vol.inodeBits) == Used(old(vol.inodeBits)) + {x}
    ensures rc == 0 ==> forall i: nat :: i < x ==> i in Used(old(vol.inodeBits))
  {
    x := 0;
    var e, entry;
    rc, e, entry := Lookup(vol, name);
    if rc == 0 { return -EINVAL, x; }
    rc, x := CreateNew(vol, name);
  }

  // ktfs_create once the name is known to be new
  method CreateNew(vol: Volume, name: seq<Byte>) returns (rc: int, ghost x: nat)
    requires DirInv(vol) && ValidName(name) && !Has(RootDir(vol), name) && Spare(vol.inodeBits, |vol.inodes|) != {}
    requires |vol.SpareBlocks()| >= RootCost(|RootDir(vol)|)
    modifies vol`data, vol`inodes, vol`dataBits, vol`inodeBits, vol`owner, vol`live
    ensures DirInv(vol) && rc == 0
    ensures Created(old(vol.Img()), old(vol.owner), old(vol.live), old(RootDir(vol)),
                    vol.Img(), vol.owner, vol.live, RootDir(vol), vol.root, x, name)
    ensures |vol.SpareBlocks()| == |old(vol.SpareBlocks())| - RootCost(|old(RootDir(vol))|)
    ensures Used(vol.inodeBits) == Used(old(vol.inodeBits)) + {x}
    ensures forall i: nat :: i < x ==> i in Used(old(vol.inodeBits))
  {
    DirShort(RootDir(vol), vol.live, vol.root, |vol.inodes|);
    var inode := NewInode(vol);
    x := inode;
    label L:
    rc := AddEntry(vol, inode, name);
    if rc != 0 { return; }
    CreateDone(old(vol.Img()), old@L(vol.Img()), vol.Img(), old(vol.live), vol.root, x);
    AppendOk(old(RootDir(vol)), x, name);
  }

  // One more entry at the end of the directory.
  method AddEntry(vol: Volume, x: nat, name: seq<Byte>) returns (rc: int)
    requires vol.Valid() && HasRoot(vol) && |RootDir(vol)| < 0x1_0000 && ValidName(name) && x < 0x1_0000
    requires |vol.SpareBlocks()| >= RootCost(|RootDir(vol)|)
    modifies vol`data, vol`inodes, vol`dataBits, vol`owner
    ensures rc == 0 && vol.Valid() && HasRoot(vol)
    ensures RootDir(vol) == old(RootDir(vol)) + [Dentry(x, name)]
    ensures |vol.SpareBlocks()| == |old(vol.SpareBlocks())| - RootCost(|old(RootDir(vol))|)
    ensures OthersSame(old(vol.Img()), vol.Img(), vol.live, vol.root)
    ensures Extends(old(vol.owner), vol.owner, vol.root, Blocks(DENSZ * |old(RootDir(vol))|))
  {
    rc := GrowRoot(vol, |RootDir(vol)|);
    if rc != 0 { return; }
    DirPrefix(old(Content(vol.Img(), vol.root)), Content(vol.Img(), vol.root));
    label L:
    rc := FillEntry(vol, old(RootDir(vol)), x, name);
    OthersSameMore(old(vol.Img()), old@L(vol.Img()), vol.Img(), vol.live, vol.root);
  }

  lemma DirShort(dir: seq<Dentry>, live: set<nat>, root: nat, n: nat)
    requires DirOk(dir) && live == {root} + Inos(dir) && root !in Inos(dir) && forall x :: x in live ==> x < n
    ensures |dir| < n
  {
    EntriesCount(dir);
    BoundedSet(live, n);
  }

  lemma CreateDone(d: Disk, d1: Disk, d2: Disk, live: set<nat>, root: nat, x: nat)
    requires x !in live && root in live && OthersSame(d, d1, live, x) && OthersSame(d1, d2, live + {x}, root)
    requires x < |d1.inodes| && d1.inodes[x].size == 0
    ensures OthersSame(d, d2, live, root) && x < |d2.inodes| && d2.inodes[x].size == 0
  {
    assert x in live + {x};
    assert |Content(d2, x)| == |Content(d1, x)|;
    forall y {:trigger y in live} | y in live && y != root
      ensures Sized(d, y) && Sized(d2, y) && Content(d2, y) == Content(d, y)
    {
      assert y in live + {x};
    }
  }

  // Writes the entry of the new inode behind the others.
  method FillEntry(vol: Volume, ghost dir: seq<Dentry>, x: nat, name: seq<Byte>) returns (rc: int)
    requires vol.Valid() && HasRoot(vol) && ValidName(name) && x < 0x1_0000
    requires |RootDir(vol)| == |dir| + 1 && dir <= RootDir(vol)
    modifies vol`data
    ensures rc == 0 && vol.Valid() && HasRoot(vol) && RootDir(vol) == dir + [Dentry(x, name)]
    ensures |vol.data| == |old(vol.data)|
    ensures OthersSame(old(vol.Img()), vol.Img(), vol.live, vol.root)
  {
    var last := vol.inodes[vol.root].size / DENSZ - 1;
    rc := SetEntry(vol, last, x, name);
  }

  // Copies the last entry over entry e and blanks the last one's name.
  method MoveLast(vol: Volume, e: nat) returns (rc: int)
    requires vol.Valid() && HasRoot(vol) && DirOk(RootDir(vol)) && e < |RootDir(vol)|
    modifies vol`data
    ensures rc == 0 && vol.Valid() && HasRoot(vol) && |RootDir(vol)| == |old(RootDir(vol))|
    ensures RootDir(vol)[..|RootDir(vol)| - 1] == Dropped(old(RootDir(vol)), e)
    ensures OthersSame(old(vol.Img()), vol.Img(), vol.live, vol.root)
  {
    var last := vol.inodes[vol.root].size / DENSZ - 1;
    var entry;
    rc, entry := ReadEntry(vol, last);
    if rc != 0 { return; }
    EntryNumber(Content(vol.Img(), vol.root), last);
    ghost var d, dir := vol.Img(), RootDir(vol);
    rc := SetEntry(vol, e, entry.ino, entry.name);
    if rc != 0 { return; }
    ghost var d1 := vol.Img();
    rc := BlankName(vol, last);
    OthersSameMore(d, d1, vol.Img(), vol.live, vol.root);
    HoleFilled(dir, e, entry, RootDir(vol));
  }

  lemma HoleFilled(dir: seq<Dentry>, e: nat, entry: Dentry, dir1: seq<Dentry>)
    requires e < |dir| == |dir1| && entry == dir[|dir| - 1]
    requires dir1[..|dir| - 1] == dir[e := Dentry(entry.ino, entry.name)][..|dir| - 1]
    ensures dir1[..|dir| - 1] == Dropped(dir, e)
  {
  }

  method SetEntry(vol: Volume, e: nat, x: nat, name: seq<Byte>) returns (rc: int)
    requires vol.Valid() && HasRoot(vol) && ValidName(name) && x < 0x1_0000 && e < |RootDir(vol)|
    modifies vol`data
    ensures rc == 0 && vol.Valid() && HasRoot(vol) && RootDir(vol) == old(RootDir(vol))[e := Dentry(x, name)]
    ensures |vol.data| == |old(vol.data)|
    ensures OthersSame(old(vol.Img()), vol.Img(), vol.live, vol.root)
  {
    rc := WriteEntry(vol, e, 0, EntryBytes(x, name));
    DirWritten(old(Content(vol.Img(), vol.root)), Content(vol.Img(), vol.root), e, x, name);
  }

  method BlankName(vol: Volume, last: nat) returns (rc: int)
    requires vol.Valid() && HasRoot(vol) && |RootDir(vol)| == last + 1
    modifies vol`data
    ensures rc == 0 && vol.Valid() && HasRoot(vol) && |RootDir(vol)| == last + 1
    ensures RootDir(vol)[..last] == old(RootDir(vol))[..last]
    ensures OthersSame(old(vol.Img()), vol.Img(), vol.live, vol.root)
  {
    rc := WriteEntry(vol, last, 2, [0]);
    DirCleared(old(Content(vol.Img(), vol.root)), Content(vol.Img(), vol.root), last);
  }

  lemma EntryNumber(c: seq<Byte>, e: nat)
    requires e < |Dir(c)|
    ensures Dir(c)[e].ino < 0x1_0000
  {
  }

  // Takes the last entry off the directory, with its block if that is now unused.
  method ShrinkRoot(vol: Volume) returns (rc: int)
    requires vol.Valid() && HasRoot(vol) && 0 < |RootDir(vol)| < 0x1_0000
    modifies vol`inodes, vol`dataBits, vol`owner
    ensures rc == 0 && vol.Valid() && HasRoot(vol)
    ensures RootDir(vol) == old(RootDir(vol))[..|old(RootDir(vol))| - 1]
    ensures OthersSame(old(vol.Img()), vol.Img(), vol.live, vol.root)
    ensures vol.owner == Trim(old(vol.owner), vol.root, Blocks(DENSZ * |RootDir(vol)|))
  {
    var x := vol.root;
    ghost var d, o, last := vol.Img(), vol.owner, |RootDir(vol)| - 1;
    RootShrunk(d, o, vol.live, x, last);
    RootBlocks(last + 1);
    assert vol.inodes[x].size / DENSZ - 1 == last && |RootDir(vol)| == last + 1;
    rc := FreeEntryBlock(vol, x, vol.inodes[x].size / DENSZ - 1);
    if rc != 0 { return; }
    vol.inodes := vol.inodes[x := vol.inodes[x].(size := vol.inodes[x].size - DENSZ)];
    assert vol.Img() == WithSize(d, x, DENSZ * last);
  }

  lemma RootShrunk(d: Disk, o: Owner, live: set<nat>, x: nat, last: nat)
    requires Ok(d, o, live) && x in live && d.inodes[x].size == DENSZ * last + DENSZ
    ensures var d1 := WithSize(d, x, DENSZ * last);
      Ok(d1, Trim(o, x, Blocks(DENSZ * last)), live) && OthersSame(d, d1, live, x)
      && Sized(d, x) && Sized(d1, x) && Dir(Content(d1, x)) == Dir(Content(d, x))[..last]
  {
    OkShrunk(d, o, live, x, DENSZ * last);
    DirPrefix(Content(d, x)[..DENSZ * last], Content(d, x));
  }

  // Gives up the block of entry number last, if that is the first in its block.
  method FreeEntryBlock(vol: Volume, x: nat, last: nat) returns (rc: int)
    requires vol.Balanced() && vol.Holds(x, Blocks(DENSZ * last + DENSZ)) && last < 0x1_0000
    modifies vol`dataBits, vol`owner
    ensures rc == 0 && vol.Balanced() && vol.owner == Trim(old(vol.owner), x, Blocks(DENSZ * last))
  {
    RootBlocks(last);
    if last % 32 == 0 {
      rc := vol.FreeBlockFromInode(x, last / 32);
      if rc != 0 { return; }
    } else {
      TrimNothing(vol.owner, x, Blocks(DENSZ * last));
    }
    rc := 0;
  }

  // The loop of ktfs_delete that frees the blocks of x, last block first.
  method FreeBlocks(vol: Volume, x: nat) returns (rc: int)
    requires vol.Valid() && x in vol.live
    modifies vol`dataBits, vol`owner
    ensures rc == 0 && vol.Balanced() && vol.owner == Trim(old(vol.owner), x, 0)
  {
    var count := Blocks(vol.inodes[x].size);
    TrimNothing(vol.owner, x, count);
    var i := 0;
    while i < count
      invariant i <= count && vol.Balanced() && vol.Holds(x, count - i)
      invariant vol.owner == Trim(old(vol.owner), x, count - i)
    {
      rc := FreeLast(vol, x, count - i - 1, old(vol.owner));
      if rc != 0 { return; }
      i := i + 1;
    }
    rc := 0;
  }

  // one round of it
  method FreeLast(vol: Volume, x: nat, n: nat, ghost o: Owner) returns (rc: int)
    requires vol.Balanced() && vol.Holds(x, n + 1) && n < MAX_BLOCKS && vol.owner == Trim(o, x, n + 1)
    modifies vol`dataBits, vol`owner
    ensures rc == 0 && vol.Balanced() && vol.Holds(x, n) && vol.owner == Trim(o, x, n)
  {
    rc := vol.FreeBlockFromInode(x, n);
    TrimMore(o, x, n, n + 1);
  }

  // Frees the blocks of x and x itself.
  method FreeFile(vol: Volume, x: nat) returns (rc: int)
    requires vol.Valid() && x in vol.live
    modifies vol`dataBits, vol`inodeBits, vol`owner, vol`live
    ensures rc == 0 && vol.Valid() && vol.live == old(vol.live) - {x}
    ensures vol.owner == Trim(old(vol.owner), x, 0)
    ensures Used(vol.inodeBits) == Used(old(vol.inodeBits)) - {x}
  {
    OkRemoved(vol.Img(), vol.owner, vol.live, x);
    SetBitUsed(vol.inodeBits, x);
    rc := FreeBlocks(vol, x);
    if rc != 0 { return; }
    vol.inodeBits := ClearAt(vol.inodeBits, x);
    vol.live := vol.live - {x};
  }

  // What ktfs_delete makes of the volume: entry e gone, its inode and all its blocks given back; no other
  // file changes.
  ghost predicate Deleted(d: Disk, o: Owner, live: set<nat>, dir: seq<Dentry>, d1: Disk, o1: Owner, live1: set<nat>,
      dir1: seq<Dentry>, root: nat, e: nat)
  {
    && e < |dir| && dir1 == Dropped(dir, e)
    && live1 == live - {dir[e].ino}
    && OthersSame(d, d1, live1, root)
    && o1 == Trim(Trim(o, root, Blocks(DENSZ * |dir1|)), dir[e].ino, 0)
  }

  // ktfs_delete
  method Delete(vol: Volume, name: seq<Byte>) returns (rc: int, ghost at: nat)
    requires DirInv(vol)
    modifies vol`data, vol`inodes, vol`dataBits, vol`inodeBits, vol`owner, vol`live
    ensures DirInv(vol)
    ensures at == Find(old(RootDir(vol)), name) && rc == if at < |old(RootDir(vol))| then 0 else -EINVAL
    ensures rc != 0 ==> unchanged(vol)
    ensures rc == 0 ==> Deleted(old(vol.Img()), old(vol.owner), old(vol.live), old(RootDir(vol)),
                                vol.Img(), vol.owner, vol.live, RootDir(vol), vol.root, at)
    ensures rc == 0 ==> Used(vol.inodeBits) == Used(old(vol.inodeBits)) - {old(RootDir(vol))[at].ino}
  {
    var e, entry;
    rc, e, entry := Lookup(vol, name);
    at := e;
    if rc != 0 { return -EINVAL, at; }
    rc, e, entry := Lookup(vol, name);
    if rc != 0 { return; }
    RemoveEntry(vol, e, entry.ino);
  }

  method RemoveEntry(vol: Volume, e: nat, x: nat)
    requires DirInv(vol) && e < |RootDir(vol)| && x == RootDir(vol)[e].ino
    modifies vol`data, vol`inodes, vol`dataBits, vol`inodeBits, vol`owner, vol`live
    ensures DirInv(vol)
    ensures Deleted(old(vol.Img()), old(vol.owner), old(vol.live), old(RootDir(vol)),
                    vol.Img(), vol.owner, vol.live, RootDir(vol), vol.root, e)
    ensures Used(vol.inodeBits) == Used(old(vol.inodeBits)) - {x}
  {
    DirShort(RootDir(vol), vol.live, vol.root, |vol.inodes|);
    DroppedOk(RootDir(vol), e);
    var rc := Remove(vol, e, x);
  }

  // Takes entry e out of the directory and frees its inode.
  method Remove(vol: Volume, e: nat, x: nat) returns (rc: int)
    requires vol.Valid() && HasRoot(vol) && DirOk(RootDir(vol)) && e < |RootDir(vol)| < 0x1_0000
    requires x == RootDir(vol)[e].ino && x in vol.live && x != vol.root
    modifies vol`data, vol`inodes, vol`dataBits, vol`inodeBits, vol`owner, vol`live
    ensures rc == 0 && vol.Valid() && HasRoot(vol)
    ensures Deleted(old(vol.Img()), old(vol.owner), old(vol.live), old(RootDir(vol)),
                    vol.Img(), vol.owner, vol.live, RootDir(vol), vol.root, e)
    ensures Used(vol.inodeBits) == Used(old(vol.inodeBits)) - {x}
  {
    ghost var d := vol.Img();
    rc := DropEntry(vol, e);
    if rc != 0 { return; }
    OthersFewer(d, vol.Img(), vol.live, x, vol.root);
    rc := FreeFile(vol, x);
  }

  lemma OthersFewer(d: Disk, d1: Disk, live: set<nat>, x: nat, root: nat)
    requires OthersSame(d, d1, live, root)
    ensures OthersSame(d, d1, live - {x}, root)
  {
  }

  // Takes entry e out of the directory.
  method DropEntry(vol: Volume, e: nat) returns (rc: int)
    requires vol.Valid() && HasRoot(vol) && DirOk(RootDir(vol)) && e < |RootDir(vol)| < 0x1_0000
    modifies vol`data, vol`inodes, vol`dataBits, vol`owner
    ensures rc == 0 && vol.Valid() && HasRoot(vol)
    ensures RootDir(vol) == Dropped(old(RootDir(vol)), e)
    ensures OthersSame(old(vol.Img()), vol.Img(), vol.live, vol.root)
    ensures vol.owner == Trim(old(vol.owner), vol.root, Blocks(DENSZ * |RootDir(vol)|))
  {
    rc := MoveLast(vol, e);
    if rc != 0 { return; }
    label L:
    rc := ShrinkRoot(vol);
    OthersSameMore(old(vol.Img()), old@L(vol.Img()), vol.Img(), vol.live, vol.root);
  }

  // A file of size now can be extended to each of the sizes in turn.
  predicate Extensions(now: nat, sizes: seq<nat>)
    decreases |sizes|
  {
    |sizes| == 0 || (now <= sizes[0] <= KtfsFiles.MAX_SIZE && Extensions(sizes[0], sizes[1..]))
  }

  function FinalSize(now: nat, sizes: seq<nat>): nat
    decreases |sizes|
  {
    if |sizes| == 0 then now else FinalSize(sizes[0], sizes[1..])
  }

  lemma {:induction false} FinalGrows(now: nat, sizes: seq<nat>)
    requires Extensions(now, sizes)
    ensures now <= FinalSize(now, sizes)
    decreases |sizes|
  {
    if |sizes| > 0 { FinalGrows(sizes[0], sizes[1..]); }
  }

  // The blocks that a file of this size takes.
  function Needed(size: nat): nat {
    Count(Blocks(size))
  }

  // The file x has grown from nothing to size, out of spare blocks; spare1 are left. The rest is as it was.
  ghost predicate ExtendedTo(d: Disk, o: Owner, spare: nat, d1: Disk, o1: Owner, spare1: nat, live: set<nat>, x: nat,
                             size: nat)
  {
    OthersSame(d, d1, live, x) && Extends(o, o1, x, 0) && spare1 + Needed(size) == spare
  }

  // Extends a new file to each size in turn.
  method ExtendAll(vol: Volume, file: KtfsFiles.OpenFile, sizes: seq<nat>)
    requires DirInv(vol) && file.Attached(vol) && file.fileSize == 0 && file.ino != vol.root
    requires Extensions(0, sizes) && |vol.SpareBlocks()| >= Needed(FinalSize(0, sizes))
    modifies vol`data, vol`inodes, vol`dataBits, vol`owner, file`fileSize
    ensures DirInv(vol) && file.Attached(vol) && RootDir(vol) == old(RootDir(vol))
    ensures file.fileSize == FinalSize(0, sizes)
    ensures ExtendedTo(old(vol.Img()), old(vol.owner), |old(vol.SpareBlocks())|,
                       vol.Img(), vol.owner, |vol.SpareBlocks()|, vol.live, file.ino, file.fileSize)
  {
    NotExtended(vol.Img(), vol.owner, |vol.SpareBlocks()|, vol.live, vol.root, file.ino);
    ExtendEach(vol, file, 0, sizes, RootDir(vol), vol.Img(), vol.owner, |vol.SpareBlocks()|);
  }

  // the extensions that are left
  method ExtendEach(vol: Volume, file: KtfsFiles.OpenFile, now: nat, sizes: seq<nat>, ghost dir: seq<Dentry>,
                    ghost d: Disk, ghost o: Owner, ghost spare: nat)
    requires Extending(vol, file, dir, d, o, spare, now)
    requires Extensions(now, sizes) && spare >= Needed(FinalSize(now, sizes))
    modifies vol`data, vol`inodes, vol`dataBits, vol`owner, file`fileSize
    ensures Extending(vol, file, dir, d, o, spare, FinalSize(now, sizes))
    decreases |sizes|
  {
    if |sizes| > 0 {
      ExtendFits(spare, |vol.SpareBlocks()|, now, sizes);
      ExtendNext(vol, file, now, sizes[0], dir, d, o, spare);
      ExtendEach(vol, file, sizes[0], sizes[1..], dir, d, o, spare);
    }
  }

  lemma NotExtended(d: Disk, o: Owner, spare: nat, live: set<nat>, root: nat, x: nat)
    requires Ok(d, o, live)
    ensures ExtendedTo(d, o, spare, d, o, spare, live, x, 0)
  {
  }

  lemma ExtendFits(spare: nat, spare1: nat, now: nat, sizes: seq<nat>)
    requires |sizes| > 0 && Extensions(now, sizes)
    requires spare1 + Needed(now) == spare >= Needed(FinalSize(now, sizes))
    ensures spare1 + Needed(now) >= Needed(sizes[0])
  {
    FinalGrows(sizes[0], sizes[1..]);
    CountGrows(Blocks(sizes[0]), Blocks(FinalSize(now, sizes)));
  }

  // The file has been extended to size, and the directory is still dir.
  ghost predicate Extending(vol: Volume, file: KtfsFiles.OpenFile, dir: seq<Dentry>, d: Disk, o: Owner, spare: nat,
                            size: nat)
    reads vol, file
  {
    && DirInv(vol) && file.Attached(vol) && RootDir(vol) == dir && file.ino != vol.root && file.fileSize == size
    && ExtendedTo(d, o, spare, vol.Img(), vol.owner, |vol.SpareBlocks()|, vol.live, file.ino, size)
  }

  // one more extension, seen from the beginning
  method ExtendNext(vol: Volume, file: KtfsFiles.OpenFile, ghost now: nat, size: nat, ghost dir: seq<Dentry>,
                    ghost d: Disk, ghost o: Owner, ghost spare: nat)
    requires Extending(vol, file, dir, d, o, spare, now) && now <= size <= KtfsFiles.MAX_SIZE
    requires |vol.SpareBlocks()| + Needed(now) >= Needed(size)
    modifies vol`data, vol`inodes, vol`dataBits, vol`owner, file`fileSize
    ensures Extending(vol, file, dir, d, o, spare, size)
  {
    ExtendOnce(vol, file, size);
    OthersSameMore(d, old(vol.Img()), vol.Img(), vol.live, file.ino);
  }

  method ExtendOnce(vol: Volume, file: KtfsFiles.OpenFile, size: nat)
    requires DirInv(vol) && file.Attached(vol) && file.ino != vol.root
    requires file.fileSize <= size <= KtfsFiles.MAX_SIZE
    requires |vol.SpareBlocks()| + Needed(file.fileSize) >= Needed(size)
    modifies vol`data, vol`inodes, vol`dataBits, vol`owner, file`fileSize
    ensures DirInv(vol) && file.Attached(vol) && RootDir(vol) == old(RootDir(vol)) && file.fileSize == size
    ensures OthersSame(old(vol.Img()), vol.Img(), vol.live, file.ino)
    ensures Extends(old(vol.owner), vol.owner, file.ino, 0)
    ensures |vol.SpareBlocks()| + Needed(size) == |old(vol.SpareBlocks())| + Needed(old(file.fileSize))
  {
    CountGrows(Blocks(file.fileSize), Blocks(size));
    var rc := KtfsFiles.ChangeFileSize(vol, file, size);
    assert Content(vol.Img(), vol.root) == old(Content(vol.Img(), vol.root));
  }

  // A file created, extended any number of times and deleted again leaves the directory, both bitmaps and every
  // other file as they were.
  method CreateGrowDelete(vol: Volume, name: seq<Byte>, sizes: seq<nat>)
    requires DirInv(vol) && ValidName(name) && Spare(vol.inodeBits, |vol.inodes|) != {}
    requires Extensions(0, sizes)
    requires |vol.SpareBlocks()| >= RootCost(|RootDir(vol)|) + Needed(FinalSize(0, sizes))
    requires !Has(RootDir(vol), name)
    modifies vol`data, vol`inodes, vol`dataBits, vol`inodeBits, vol`owner, vol`live
    ensures DirInv(vol) && RootDir(vol) == old(RootDir(vol)) && vol.live == old(vol.live)
    ensures vol.dataBits == old(vol.dataBits) && vol.inodeBits == old(vol.inodeBits)
    ensures vol.owner == old(vol.owner) && OthersSame(old(vol.Img()), vol.Img(), vol.live, vol.root)
  {
    ghost var dir, o := RootDir(vol), vol.owner;
    var file := CreateAndOpen(vol, name);
    label L:
    ExtendAll(vol, file, sizes);
    DropLast(dir, Dentry(file.ino, name));
    FirstIs(RootDir(vol), name, |dir|);
    label M:
    var rc, _ := Delete(vol, name);
    OwnerRestored(o, old@L(vol.owner), old@M(vol.owner), vol.owner, vol.root, Blocks(DENSZ * |dir|), file.ino);
    RestoredOthers(old(vol.Img()), old@L(vol.Img()), old@M(vol.Img()), vol.Img(), vol.live, vol.root, file.ino);
    UsedDetermines(vol.dataBits, old(vol.dataBits));
    UsedDetermines(vol.inodeBits, old(vol.inodeBits));
  }

  // ktfs_create of a new name, and ktfs_open of it
  method CreateAndOpen(vol: Volume, name: seq<Byte>) returns (file: KtfsFiles.OpenFile)
    requires DirInv(vol) && ValidName(name) && Spare(vol.inodeBits, |vol.inodes|) != {}
    requires |vol.SpareBlocks()| >= RootCost(|RootDir(vol)|) && !Has(RootDir(vol), name)
    modifies vol`data, vol`inodes, vol`dataBits, vol`inodeBits, vol`owner, vol`live
    ensures DirInv(vol) && fresh(file) && file.Attached(vol) && file.fileSize == 0 && file.ino != vol.root
    ensures Created(old(vol.Img()), old(vol.owner), old(vol.live), old(RootDir(vol)),
                    vol.Img(), vol.owner, vol.live, RootDir(vol), vol.root, file.ino, name)
    ensures |vol.SpareBlocks()| == |old(vol.SpareBlocks())| - RootCost(|old(RootDir(vol))|)
    ensures Used(vol.inodeBits) == Used(old(vol.inodeBits)) + {file.ino}
  {
    ghost var n := |RootDir(vol)|;
    var rc, x := Create(vol, name);
    FirstIs(RootDir(vol), name, n);
    var e, entry;
    rc, e, entry := Lookup(vol, name);
    file := new KtfsFiles.OpenFile(entry.ino, vol.inodes[entry.ino].size);
  }

  lemma OwnerRestored(o: Owner, o1: Owner, o2: Owner, o3: Owner, root: nat, n: nat, x: nat)
    requires Extends(o, o1, root, n) && Bounded(o, root, n) && Bounded(o, x, 0) && x != root
    requires Extends(o1, o2, x, 0) && o3 == Trim(Trim(o2, root, n), x, 0)
    ensures o3 == o
  {
    forall b ensures b in o3 <==> b in o {
      if b in o { assert b in o1 && o1[b] == o[b] && b in o2 && o2[b] == o1[b]; }
      if b in o2 && b !in o1 { assert o2[b].ino == x; }
      if b in o1 && b !in o { assert o1[b].ino == root && o2[b] == o1[b]; }
    }
    forall b | b in o ensures o3[b] == o[b] {
      assert o1[b] == o[b] && o2[b] == o1[b];
    }
  }

  lemma RestoredOthers(d: Disk, d1: Disk, d2: Disk, d3: Disk, live: set<nat>, root: nat, x: nat)
    requires OthersSame(d, d1, live, root) && OthersSame(d1, d2, live + {x}, x) && OthersSame(d2, d3, live, root)
    requires x !in live
    ensures OthersSame(d, d3, live, root)
  {
    forall y {:trigger y in live} | y in live && y != root
      ensures Sized(d, y) && Sized(d3, y) && Content(d3, y) == Content(d, y)
    {
      assert y in live + {x};
    }
  }
}
