// How a volume stays in order while inodes come, go and change length.

module KtfsChanges {
  import opened LittleEndian
  import opened KtfsLayout
  import opened KtfsOwners
  import opened KtfsGrowth
  import opened KtfsContent

  // No file but x changes its bytes or its length.
  ghost predicate OthersSame(d: Disk, d1: Disk, live: set<nat>, x: nat) {
    forall y {:trigger y in live} :: y in live && y != x ==>
      Sized(d, y) && Sized(d1, y) && Content(d1, y) == Content(d, y)
  }

  lemma OthersSameMore(d: Disk, d1: Disk, d2: Disk, live: set<nat>, x: nat)
    requires OthersSame(d, d1, live, x) && OthersSame(d1, d2, live, x)
    ensures OthersSame(d, d2, live, x)
  {
  }

  lemma SizeContent(d: Disk, x: nat, size: nat, y: nat)
    requires x < |d.inodes| && Sized(d, y) && Blocks(size) <= MAX_BLOCKS
    ensures Sized(WithSize(d, x, size), y)
    ensures y != x ==> Content(WithSize(d, x, size), y) == Content(d, y)
    ensures y == x && size <= d.inodes[x].size ==> Content(WithSize(d, x, size), y) == Content(d, y)[..size]
  {
    var d1 := WithSize(d, x, size);
    forall p: nat | p < d1.inodes[y].size && p < d.inodes[y].size
      ensures ByteAt(d1, y, p) == ByteAt(d, y, p)
    {
      SizePlace(d, x, size, Key(y, DataSlot(p / BLKSZ)));
    }
  }

  lemma SizeOthers(d: Disk, o: Owner, live: set<nat>, x: nat, size: nat)
    requires Ok(d, o, live) && x < |d.inodes| && Blocks(size) <= MAX_BLOCKS
    ensures OthersSame(d, WithSize(d, x, size), live, x)
  {
    forall y {:trigger y in live} | y in live && y != x
      ensures Sized(d, y) && Sized(WithSize(d, x, size), y) && Content(WithSize(d, x, size), y) == Content(d, y)
    {
      SizeContent(d, x, size, y);
    }
  }

  // A fresh inode of size 0 owns nothing.
  lemma OkNewInode(d: Disk, o: Owner, live: set<nat>, x: nat)
    requires Ok(d, o, live) && x !in live && x < |d.inodes|
    ensures Ok(WithSize(d, x, 0), o, live + {x}) && OthersSame(d, WithSize(d, x, 0), live, x)
  {
    var d1 := WithSize(d, x, 0);
    SizeKeeps(d, o, x, 0);
    SoundKept(d, d1, o);
    forall y {:trigger y in live} | y in live + {x}
      ensures FileOk(d1, o, y, Blocks(d1.inodes[y].size))
    {
      if y != x { FullKept(d, d1, o, y, Blocks(d.inodes[y].size)); }
    }
    SizeOthers(d, o, live, x, 0);
  }

  // Once trimmed to nothing, an inode can be given up.
  lemma OkRemoved(d: Disk, o: Owner, live: set<nat>, x: nat)
    requires Ok(d, o, live) && x in live
    ensures Ok(d, Trim(o, x, 0), live - {x})
  {
    TrimSound(d, o, x, 0);
    forall y {:trigger y in live} | y in live - {x}
      ensures FileOk(d, Trim(o, x, 0), y, Blocks(d.inodes[y].size))
    {
      TrimOthers(d, o, x, 0, y, Blocks(d.inodes[y].size));
    }
  }

  // A file cut down to size keeps its first blocks.
  lemma OkShrunk(d: Disk, o: Owner, live: set<nat>, x: nat, size: nat)
    requires Ok(d, o, live) && x in live && size <= d.inodes[x].size
    ensures Ok(WithSize(d, x, size), Trim(o, x, Blocks(size)), live)
    ensures OthersSame(d, WithSize(d, x, size), live, x)
    ensures Sized(d, x) && Sized(WithSize(d, x, size), x)
    ensures Content(WithSize(d, x, size), x) == Content(d, x)[..size]
  {
    var d1, o1 := WithSize(d, x, size), Trim(o, x, Blocks(size));
    TrimSound(d, o, x, Blocks(size));
    SizeKeeps(d, o1, x, size);
    SoundKept(d, d1, o1);
    forall y {:trigger y in live} | y in live
      ensures FileOk(d1, o1, y, Blocks(d1.inodes[y].size))
    {
      if y != x { TrimOthers(d, o, x, Blocks(size), y, Blocks(d.inodes[y].size)); }
      FullKept(d, d1, o1, y, Blocks(d1.inodes[y].size));
    }
    SizeOthers(d, o, live, x, size);
    SizeContent(d, x, size, x);
  }

  // Growing after the new size was recorded.
  lemma OkSizedGrown(d: Disk, o: Owner, live: set<nat>, x: nat, size: nat, d2: Disk, o2: Owner)
    requires Ok(d, o, live) && x in live && d.inodes[x].size <= size && Blocks(size) <= MAX_BLOCKS
    requires Growth(WithSize(d, x, size), o, d2, o2, x, Blocks(d.inodes[x].size), Blocks(size))
    requires Full(d2, o2, x, Blocks(size))
    ensures Ok(d2, o2, live)
  {
    var d1 := WithSize(d, x, size);
    var n, m := Blocks(d.inodes[x].size), Blocks(size);
    SizeKeeps(d, o, x, size);
    forall y {:trigger y in live} | y in live
      ensures FileOk(d2, o2, y, Blocks(d2.inodes[y].size))
    {
      if y != x {
        FullKept(d, d1, o, y, Blocks(d.inodes[y].size));
        FullGrown(d1, o, d2, o2, x, n, m, y, Blocks(d.inodes[y].size));
      }
    }
  }

  lemma SizedGrownByte(d: Disk, o: Owner, live: set<nat>, x: nat, size: nat, d2: Disk, o2: Owner, y: nat, p: nat)
    requires Ok(d, o, live) && x in live && y in live && p < d.inodes[y].size
    requires Growth(WithSize(d, x, size), o, d2, o2, x, Blocks(d.inodes[x].size), Blocks(size))
    ensures p / BLKSZ < MAX_BLOCKS && ByteAt(d2, y, p) == ByteAt(d, y, p)
  {
    var d1 := WithSize(d, x, size);
    ByteOwned(d, o, live, y, p);
    var key := Key(y, DataSlot(p / BLKSZ));
    var b := Place(d, key);
    SizePlace(d, x, size, key);
    OwnsKept(d1, d2, o, y, key.slot);
    assert o2[b] == o[b] == key;
  }

  lemma SizedGrownContent(d: Disk, o: Owner, live: set<nat>, x: nat, size: nat, d2: Disk, o2: Owner)
    requires Ok(d, o, live) && x in live && d.inodes[x].size <= size && Blocks(size) <= MAX_BLOCKS
    requires Growth(WithSize(d, x, size), o, d2, o2, x, Blocks(d.inodes[x].size), Blocks(size))
    ensures OthersSame(d, d2, live, x) && Sized(d, x) && Sized(d2, x)
    ensures Content(d, x) <= Content(d2, x) && |Content(d2, x)| == size
  {
    forall y {:trigger y in live} | y in live
      ensures Sized(d, y) && Sized(d2, y) && (y != x ==> Content(d2, y) == Content(d, y))
    {
      forall p: nat | p < d.inodes[y].size
        ensures p / BLKSZ < MAX_BLOCKS && ByteAt(d2, y, p) == ByteAt(d, y, p)
      {
        SizedGrownByte(d, o, live, x, size, d2, o2, y, p);
      }
    }
    forall p: nat | p < d.inodes[x].size ensures Content(d2, x)[p] == Content(d, x)[p] {
      SizedGrownByte(d, o, live, x, size, d2, o2, x, p);
    }
  }

  // Writing bytes into x changes no other file.
  lemma StoredOthers(d: Disk, d1: Disk, live: set<nat>, x: nat, pos: nat, buf: seq<Byte>)
    requires Stored(d, d1, live, x, pos, buf, |buf|)
    ensures OthersSame(d, d1, live, x)
  {
    forall y {:trigger y in live} | y in live && y != x
      ensures Sized(d, y) && Sized(d1, y) && Content(d1, y) == Content(d, y)
    {
      forall p: nat | p < d.inodes[y].size ensures Content(d1, y)[p] == Content(d, y)[p] {
        assert Content(d1, y)[p] == ByteAt(d1, y, p);
      }
    }
  }
}
