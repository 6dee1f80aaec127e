// The bytes of a file, read through its block map, and what growing and writing do to them.

module KtfsContent {
  import opened LittleEndian
  import opened KtfsLayout
  import opened KtfsOwners
  import opened KtfsGrowth

  // Byte p of inode x.
  function ByteAt(d: Disk, x: nat, p: nat): Byte
    requires x < |d.inodes| && p / BLKSZ < MAX_BLOCKS
  {
    var b := At(d.data, d.inodes[x], DataSlot(p / BLKSZ));
    if b < |d.data| then d.data[b][p % BLKSZ] else 0
  }

  ghost predicate Sized(d: Disk, x: nat) {
    x < |d.inodes| && Blocks(d.inodes[x].size) <= MAX_BLOCKS
  }

  // The file as a byte sequence.
  ghost function Content(d: Disk, x: nat): (c: seq<Byte>)
    requires Sized(d, x)
    ensures |c| == d.inodes[x].size
    ensures forall p :: 0 <= p < |c| ==> c[p] == ByteAt(d, x, p)
  {
    seq(d.inodes[x].size, p requires 0 <= p < d.inodes[x].size => ByteAt(d, x, p))
  }

  // The block of byte p of a live file is owned by its data slot.
  lemma ByteOwned(d: Disk, o: Owner, live: set<nat>, x: nat, p: nat)
    requires Ok(d, o, live) && x in live && p < d.inodes[x].size
    ensures p / BLKSZ < MAX_BLOCKS && Owns(d, o, x, DataSlot(p / BLKSZ))
    ensures Place(d, Key(x, DataSlot(p / BLKSZ))) < |d.data|
  {
    DataSlotRank(p / BLKSZ);
    assert Owns(d, o, x, DataSlot(p / BLKSZ));
    assert Entry(d, o, Place(d, Key(x, DataSlot(p / BLKSZ))));
  }

  // The i-th byte of file block n.
  lemma ByteInBlock(d: Disk, o: Owner, live: set<nat>, x: nat, n: nat, i: nat)
    requires Ok(d, o, live) && x in live && i < BLKSZ && BLKSZ * n + i < d.inodes[x].size
    ensures n < MAX_BLOCKS && Owns(d, o, x, DataSlot(n)) && Place(d, Key(x, DataSlot(n))) < |d.data|
    ensures ByteAt(d, x, BLKSZ * n + i) == d.data[Place(d, Key(x, DataSlot(n)))][i]
  {
    DivMod(n, i);
    ByteOwned(d, o, live, x, BLKSZ * n + i);
  }

  lemma DivMod(n: nat, i: nat)
    requires i < BLKSZ
    ensures (BLKSZ * n + i) / BLKSZ == n && (BLKSZ * n + i) % BLKSZ == i
  {
  }

  function WithSize(d: Disk, x: nat, size: nat): Disk
    requires x < |d.inodes|
  {
    d.(inodes := d.inodes[x := d.inodes[x].(size := size)])
  }

  lemma {:induction false} SizePlace(d: Disk, x: nat, size: nat, key: Key)
    requires x < |d.inodes| && ValidKey(d, key)
    ensures Place(WithSize(d, x, size), key) == Place(d, key)
    decreases key.slot
  {
    if key.slot.Sub? { SizePlace(d, x, size, Key(key.ino, key.slot.up)); }
  }

  lemma SizeKeeps(d: Disk, o: Owner, x: nat, size: nat)
    requires Sound(d, o) && x < |d.inodes|
    ensures SameSlots(d, WithSize(d, x, size), o)
  {
    forall b {:trigger o[b]} | b in o
      ensures ValidKey(d, o[b]) && Place(WithSize(d, x, size), o[b]) == b
    {
      assert Entry(d, o, b);
      SizePlace(d, x, size, o[b]);
    }
  }

  // After growing and recording the new size, the volume is in order again.
  lemma OkGrown(d: Disk, o: Owner, live: set<nat>, d1: Disk, o1: Owner, x: nat, size: nat)
    requires Ok(d, o, live) && x in live && Blocks(size) <= MAX_BLOCKS
    requires Growth(d, o, d1, o1, x, Blocks(d.inodes[x].size), Blocks(size)) && Full(d1, o1, x, Blocks(size))
    ensures Ok(WithSize(d1, x, size), o1, live)
  {
    var d2 := WithSize(d1, x, size);
    SizeKeeps(d1, o1, x, size);
    SoundKept(d1, d2, o1);
    forall y {:trigger y in live} | y in live
      ensures FileOk(d2, o1, y, Blocks(d2.inodes[y].size))
    {
      var n := Blocks(d2.inodes[y].size);
      if y != x { FullGrown(d, o, d1, o1, x, Blocks(d.inodes[x].size), Blocks(size), y, n); }
      FullKept(d1, d2, o1, y, n);
    }
  }

  // Growing a file changes no byte that any file had.
  lemma GrownByte(d: Disk, o: Owner, live: set<nat>, d1: Disk, o1: Owner, x: nat, m: nat, size: nat, y: nat, p: nat)
    requires Ok(d, o, live) && x < |d.inodes| && y in live && p < d.inodes[y].size
    requires Growth(d, o, d1, o1, x, Blocks(d.inodes[x].size), m)
    ensures p / BLKSZ < MAX_BLOCKS && ByteAt(WithSize(d1, x, size), y, p) == ByteAt(d, y, p)
  {
    ByteOwned(d, o, live, y, p);
    var key := Key(y, DataSlot(p / BLKSZ));
    var b := Place(d, key);
    OwnsKept(d, d1, o, y, key.slot);
    SizePlace(d1, x, size, key);
    assert o1[b] == o[b] == key;
  }

  lemma GrownContent(d: Disk, o: Owner, live: set<nat>, d1: Disk, o1: Owner, x: nat, size: nat, y: nat)
    requires Ok(d, o, live) && x in live && y in live && d.inodes[x].size <= size && Blocks(size) <= MAX_BLOCKS
    requires Growth(d, o, d1, o1, x, Blocks(d.inodes[x].size), Blocks(size))
    ensures Sized(d, y) && Sized(WithSize(d1, x, size), y)
    ensures var c := Content(WithSize(d1, x, size), y);
      if y == x then |c| == size && Content(d, y) <= c else c == Content(d, y)
  {
    forall p | 0 <= p < d.inodes[y].size
      ensures p / BLKSZ < MAX_BLOCKS && ByteAt(WithSize(d1, x, size), y, p) == ByteAt(d, y, p)
    {
      GrownByte(d, o, live, d1, o1, x, Blocks(size), size, y, p);
    }
  }

  function Patch(b: Block, off: nat, bytes: seq<Byte>): Block
    requires off + |bytes| <= BLKSZ
  {
    b[..off] + bytes + b[off + |bytes|..]
  }

  // d1 is d after bytes were written to block b, which is file block n of x.
  ghost predicate BlockWritten(d: Disk, o: Owner, d1: Disk, x: nat, n: nat, off: nat, bytes: seq<Byte>)
    requires x < |d.inodes| && n < MAX_BLOCKS && off + |bytes| <= BLKSZ
  {
    && Owns(d, o, x, DataSlot(n))
    && var b := Place(d, Key(x, DataSlot(n)));
    b < |d.data| && d1 == d.(data := d.data[b := Patch(d.data[b], off, bytes)])
  }

  lemma WrittenOk(d: Disk, o: Owner, live: set<nat>, d1: Disk, x: nat, n: nat, off: nat, bytes: seq<Byte>)
    requires Ok(d, o, live) && x in live && n < MAX_BLOCKS && off + |bytes| <= BLKSZ
    requires BlockWritten(d, o, d1, x, n, off, bytes)
    ensures Ok(d1, o, live) && SameSlots(d, d1, o)
  {
    var b := Place(d, Key(x, DataSlot(n)));
    DataKeeps(d, o, b, Patch(d.data[b], off, bytes));
    SoundKept(d, d1, o);
    forall y {:trigger y in live} | y in live
      ensures FileOk(d1, o, y, Blocks(d1.inodes[y].size))
    {
      FullKept(d, d1, o, y, Blocks(d.inodes[y].size));
    }
  }

  // It changes the bytes [512 n + off, 512 n + off + |bytes|) of x, and no other byte of any file.
  lemma WrittenByte(d: Disk, o: Owner, live: set<nat>, d1: Disk, x: nat, n: nat, off: nat, bytes: seq<Byte>,
                    y: nat, p: nat)
    requires Ok(d, o, live) && x in live && n < MAX_BLOCKS && off + |bytes| <= BLKSZ
    requires BlockWritten(d, o, d1, x, n, off, bytes) && SameSlots(d, d1, o)
    requires y in live && p < d.inodes[y].size && Sized(d, y)
    ensures ByteAt(d1, y, p) ==
      if y == x && BLKSZ * n + off <= p < BLKSZ * n + off + |bytes| then bytes[p - BLKSZ * n - off] else ByteAt(d, y, p)
  {
    ByteOwned(d, o, live, y, p);
    var key := Key(y, DataSlot(p / BLKSZ));
    OwnsKept(d, d1, o, y, key.slot);
    DataSlotRank(n);
    DataSlotRank(p / BLKSZ);
    assert p == BLKSZ * (p / BLKSZ) + p % BLKSZ;
  }

  // The first done bytes of buf are in x at pos; nothing else of any file differs from d0.
  ghost predicate Stored(d0: Disk, d: Disk, live: set<nat>, x: nat, pos: nat, buf: seq<Byte>, done: nat) {
    && d.inodes == d0.inodes && |d.data| == |d0.data| && done <= |buf|
    && (forall y {:trigger y in live} :: y in live ==> Sized(d0, y))
    && (forall y, p: nat {:trigger ByteAt(d, y, p)} ::
          y in live && y < |d0.inodes| && p < d0.inodes[y].size && Sized(d0, y) ==>
          ByteAt(d, y, p) == if y == x && pos <= p < pos + done then buf[p - pos] else ByteAt(d0, y, p))
  }

  lemma StoredMore(d0: Disk, d: Disk, o: Owner, live: set<nat>, d1: Disk, x: nat, pos: nat, buf: seq<Byte>, done: nat,
      n: nat, off: nat, count: nat)
    requires Ok(d, o, live) && x in live && Stored(d0, d, live, x, pos, buf, done) && done + count <= |buf|
    requires n < MAX_BLOCKS && off + count <= BLKSZ && pos + done == BLKSZ * n + off
    requires BlockWritten(d, o, d1, x, n, off, buf[done..done + count])
    ensures Ok(d1, o, live) && Stored(d0, d1, live, x, pos, buf, done + count)
  {
    WrittenOk(d, o, live, d1, x, n, off, buf[done..done + count]);
    forall y, p: nat {:trigger ByteAt(d1, y, p)} | y in live && y < |d0.inodes| && p < d0.inodes[y].size && Sized(d0, y)
      ensures ByteAt(d1, y, p) == if y == x && pos <= p < pos + done + count then buf[p - pos] else ByteAt(d0, y, p)
    {
      WrittenByte(d, o, live, d1, x, n, off, buf[done..done + count], y, p);
      assert ByteAt(d, y, p) == if y == x && pos <= p < pos + done then buf[p - pos] else ByteAt(d0, y, p);
    }
  }
}
