// Open files of sys/ktfs.c: ktfs_fetch, ktfs_store and changeFileSize.

module KtfsFiles {
  import opened Arith
  import opened Errors
  import opened LittleEndian
  import opened Sequences
  import opened KtfsLayout
  import opened KtfsBitmap
  import opened KtfsOwners
  import opened KtfsGrowth
  import opened KtfsContent
  import opened KtfsVolume

  const MAX_SIZE: nat := 32900 * 512

  class OpenFile {
    const ino: nat
    var fileSize: nat
    var pos: nat

    // in step with its inode
    ghost predicate Attached(vol: Volume)
      reads this`fileSize, vol`inodes, vol`live
    {
      ino in vol.live && ino < |vol.inodes| && fileSize == vol.inodes[ino].size
    }

    constructor (inode: nat, size: nat)
      ensures ino == inode && fileSize == size && pos == 0
    {
      ino, fileSize, pos := inode, size, 0;
    }
  }

  // The blocks a file takes on when it grows to size bytes.
  function NewBlocks(old_size: nat, size: nat): nat {
    if old_size <= size then
      CountGrows(Blocks(old_size), Blocks(size));
      Count(Blocks(size)) - Count(Blocks(old_size))
    else 0
  }

  // the loop of changeFileSize
  method GrowBlocks(vol: Volume, x: nat, start: nat, end: nat) returns (rc: int)
    requires vol.Balanced() && vol.Holds(x, start) && start <= end <= MAX_BLOCKS
    requires |vol.SpareBlocks()| >= Count(end) - Count(start)
    modifies vol`data, vol`inodes, vol`dataBits, vol`owner
    ensures rc == 0 && vol.Balanced()
    ensures GrownTo(old(vol.Img()), old(vol.owner), vol.Img(), vol.owner, x, start, end)
    ensures |vol.SpareBlocks()| == |old(vol.SpareBlocks())| - (Count(end) - Count(start))
  {
    ghost var d, o, spare := vol.Img(), vol.owner, |vol.SpareBlocks()|;
    GrowthNone(d, o, x, start, start);
    var curr := start;
    rc := 0;
    while curr < end
      invariant rc == 0 && start <= curr <= end && vol.Balanced()
      invariant GrownTo(d, o, vol.Img(), vol.owner, x, start, curr)
      invariant Spent(spare, |vol.SpareBlocks()|, start, curr)
    {
      StillEnough(spare, |vol.SpareBlocks()|, start, curr, end);
      rc := GrowOne(vol, x, start, curr, d, o);
      if rc != 0 { return; }
      curr := curr + 1;
    }
  }

  // Of spare blocks the growth from start to n blocks has left have.
  predicate Spent(spare: nat, have: nat, start: nat, n: nat) {
    have == spare - (Count(n) - Count(start))
  }

  lemma StillEnough(spare: nat, have: nat, start: nat, n: nat, end: nat)
    requires Spent(spare, have, start, n) && n < end && spare >= Count(end) - Count(start)
    ensures have >= Cost(n) && Spent(spare, have - Cost(n), start, n + 1)
  {
    CountGrows(n + 1, end);
  }

  // one round of it
  method GrowOne(vol: Volume, x: nat, ghost start: nat, curr: nat, ghost d: Disk, ghost o: Owner) returns (rc: int)
    requires vol.Balanced() && start <= curr < MAX_BLOCKS && |vol.SpareBlocks()| >= Cost(curr)
    requires GrownTo(d, o, vol.Img(), vol.owner, x, start, curr)
    modifies vol`data, vol`inodes, vol`dataBits, vol`owner
    ensures rc == 0 && vol.Balanced()
    ensures GrownTo(d, o, vol.Img(), vol.owner, x, start, curr + 1)
    ensures |vol.SpareBlocks()| == |old(vol.SpareBlocks())| - Cost(curr)
  {
    rc := vol.AllocateBlockFromInode(x, curr);
    OneBlockMore(d, o, old(vol.Img()), old(vol.owner), vol.Img(), vol.owner, x, start, curr);
  }

  lemma OneBlockMore(d: Disk, o: Owner, d1: Disk, o1: Owner, d2: Disk, o2: Owner, x: nat, start: nat, curr: nat)
    requires start <= curr && Growth(d, o, d1, o1, x, start, curr) && Growth(d1, o1, d2, o2, x, curr, curr + 1)
    ensures Growth(d, o, d2, o2, x, start, curr + 1)
  {
    GrowthFrom(d1, o1, d2, o2, x, start, curr, curr + 1);
    GrowthMore(d, o, d1, o1, d2, o2, x, start, curr, curr + 1);
  }

  method ChangeFileSize(vol: Volume, file: OpenFile, size: nat) returns (rc: int)
    requires vol.Valid() && file.Attached(vol) && file.fileSize <= size
    requires |vol.SpareBlocks()| >= NewBlocks(file.fileSize, Min(size, MAX_SIZE))
    modifies vol`data, vol`inodes, vol`dataBits, vol`owner, file`fileSize
    ensures rc == 0 && vol.Valid() && file.Attached(vol) && file.fileSize == Min(size, MAX_SIZE)
    ensures Extends(old(vol.owner), vol.owner, file.ino, Blocks(old(file.fileSize)))
    ensures |vol.SpareBlocks()| == |old(vol.SpareBlocks())| - NewBlocks(old(file.fileSize), file.fileSize)
    ensures Resized(old(vol.Img()), vol.Img(), vol.live, file.ino)
  {
    var newSize := Min(size, MAX_SIZE);
    var start, end := Blocks(file.fileSize), Blocks(newSize);
    SizeBound(file.fileSize);
    rc := GrowBlocks(vol, file.ino, start, end);
    if rc != 0 { return; }
    ResizeDone(old(vol.Img()), old(vol.owner), vol.live, vol.Img(), vol.owner, file.ino, newSize);
    vol.inodes := vol.inodes[file.ino := vol.inodes[file.ino].(size := newSize)];
    file.fileSize := newSize;
  }

  lemma SizeBound(size: nat)
    ensures size <= MAX_SIZE <==> Blocks(size) <= MAX_BLOCKS
  {
  }

  // x may have become longer; everything that was in any file still is, at its place.
  ghost predicate Resized(d: Disk, d1: Disk, live: set<nat>, x: nat) {
    |d1.inodes| == |d.inodes| && |d1.data| == |d.data|
    && forall y {:trigger y in live} :: y in live ==>
      Sized(d, y) && Sized(d1, y)
      && if y == x then Content(d, y) <= Content(d1, y) else Content(d1, y) == Content(d, y)
  }

  lemma ResizeDone(d: Disk, o: Owner, live: set<nat>, d1: Disk, o1: Owner, x: nat, size: nat)
    requires Ok(d, o, live) && x in live && d.inodes[x].size <= size && Blocks(size) <= MAX_BLOCKS
    requires Growth(d, o, d1, o1, x, Blocks(d.inodes[x].size), Blocks(size)) && Full(d1, o1, x, Blocks(size))
    ensures Ok(WithSize(d1, x, size), o1, live) && Resized(d, WithSize(d1, x, size), live, x)
  {
    OkGrown(d, o, live, d1, o1, x, size);
    forall y {:trigger y in live} | y in live
      ensures Sized(d, y) && Sized(WithSize(d1, x, size), y)
      ensures var c := Content(WithSize(d1, x, size), y);
        if y == x then Content(d, y) <= c else c == Content(d, y)
    {
      GrownContent(d, o, live, d1, o1, x, size, y);
    }
  }

  // The block number of file block n, down the three tiers; false past the last tier.
  method FindBlock(vol: Volume, x: nat, n: nat) returns (ok: bool, b: nat)
    requires Sound(vol.Img(), vol.owner) && x < |vol.inodes|
    requires n < MAX_BLOCKS ==> Owns(vol.Img(), vol.owner, x, DataSlot(n))
    ensures ok == (n < MAX_BLOCKS)
    ensures ok ==> b == Place(vol.Img(), Key(x, DataSlot(n))) && b < |vol.data|
  {
    if n < MAX_BLOCKS { PathOwned(vol.Img(), vol.owner, x, n); }
    if n < 4 {
      b := vol.inodes[x].block[n];
    } else if n < 132 {
      b := Ptr(vol.data[vol.inodes[x].indirect], n - 4);
    } else if n < 32900 {
      var p := vol.inodes[x].dindirect[(n - 132) / 16384];
      var q := Ptr(vol.data[p], (n - 132) % 16384 / 128);
      b := Ptr(vol.data[q], (n - 132) % 16384 % 128);
    } else {
      return false, 0;
    }
    ok := true;
  }

  // Between two turns of a copy loop: nothing done, all done, or at the start of a block.
  predicate Between(pos: nat, len: nat, done: nat) {
    done <= len && (done == 0 || done == len || (pos + done) % 512 == 0)
  }

  // Which part of the current block one turn of the copy loops moves.
  method Chunk(pos: nat, len: nat, done: nat) returns (n: nat, off: nat, count: nat)
    requires done < len && Between(pos, len, done)
    ensures pos + done == 512 * n + off && 0 < count <= len - done && off + count <= 512
    ensures Between(pos, len, done + count)
  {
    n := (pos + done) / 512;
    if pos / 512 == (pos + len) / 512 {
      off := pos % 512;
      count := (pos + len) % 512 - off;
    } else if done == 0 {
      off := pos % 512;
      count := 512 - off;
    } else if len - done < 512 {
      off, count := 0, len - done;
    } else {
      off, count := 0, 512;
    }
  }

  // memcpy into a buffer
  method CopyOut(buf: array<Byte>, at: nat, bytes: seq<Byte>)
    requires at + |bytes| <= buf.Length
    modifies buf
    ensures Overwritten(old(buf[..]), buf[..], at, bytes)
  {
    forall i | 0 <= i < |bytes| { buf[at + i] := bytes[i]; }
  }

  // A slice inside one block is that part of the file.
  lemma BlockSlice(d: Disk, o: Owner, live: set<nat>, x: nat, n: nat, off: nat, count: nat)
    requires Ok(d, o, live) && x in live && Sized(d, x)
    requires 0 < count && 512 * n + off + count <= d.inodes[x].size && off + count <= 512
    ensures n < MAX_BLOCKS && Owns(d, o, x, DataSlot(n))
    ensures var b := Place(d, Key(x, DataSlot(n)));
      b < |d.data| && d.data[b][off..off + count] == Content(d, x)[512 * n + off..512 * n + off + count]
  {
    ByteInBlock(d, o, live, x, n, off);
    var b := Place(d, Key(x, DataSlot(n)));
    forall p | 512 * n + off <= p < 512 * n + off + count
      ensures Content(d, x)[p] == d.data[b][p - 512 * n]
    {
      ByteInBlock(d, o, live, x, n, p - 512 * n);
    }
    SameSlice(Content(d, x), 512 * n + off, d.data[b], off, count);
  }

  lemma SameSlice(a: seq<Byte>, i: nat, b: seq<Byte>, j: nat, count: nat)
    requires i + count <= |a| && j + count <= |b|
    requires forall p {:trigger a[p]} :: i <= p < i + count ==> a[p] == b[p - i + j]
    ensures a[i..i + count] == b[j..j + count]
  {
  }

  // Bytes [off, off + count) of file block n.
  method ReadSlice(vol: Volume, x: nat, n: nat, off: nat, count: nat) returns (ok: bool, bytes: seq<Byte>)
    requires vol.Valid() && x in vol.live && Sized(vol.Img(), x)
    requires 0 < count && off + count <= 512 && 512 * n + off + count <= vol.inodes[x].size
    ensures ok && bytes == Content(vol.Img(), x)[512 * n + off..512 * n + off + count]
  {
    BlockSlice(vol.Img(), vol.owner, vol.live, x, n, off, count);
    var b;
    ok, b := FindBlock(vol, x, n);
    bytes := if ok then vol.data[b][off..off + count] else [];
  }

  // The first read bytes of a buffer are those of c from pos; the others are still those of b0.
  ghost predicate Copied(b0: seq<Byte>, b: seq<Byte>, c: seq<Byte>, pos: nat, read: nat) {
    && pos + read <= |c| && read <= |b0| == |b|
    && forall i {:trigger b[i]} :: 0 <= i < |b| ==> b[i] == if i < read then c[pos + i] else b0[i]
  }

  lemma CopiedExactly(b0: seq<Byte>, b: seq<Byte>, c: seq<Byte>, pos: nat, read: nat)
    requires Copied(b0, b, c, pos, read)
    ensures b[..read] == c[pos..pos + read] && b[read..] == b0[read..]
  {
  }

  lemma CopiedMore(b0: seq<Byte>, b1: seq<Byte>, b2: seq<Byte>, c: seq<Byte>, pos: nat, read: nat, bytes: seq<Byte>)
    requires pos + read + |bytes| <= |c| && read + |bytes| <= |b0| && Copied(b0, b1, c, pos, read)
    requires bytes == c[pos + read..pos + read + |bytes|]
    requires Overwritten(b1, b2, read, bytes)
    ensures Copied(b0, b2, c, pos, read + |bytes|)
  {
    forall i {:trigger b2[i]} | 0 <= i < |b2|
      ensures b2[i] == if i < read + |bytes| then c[pos + i] else b0[i]
    {
      assert b1[i] == if i < read then c[pos + i] else b0[i];
    }
  }

  // What a store makes of a file's bytes: buf at pos, the rest as it was. Bytes of a gap between the old end
  // and pos are whatever the new blocks held.
  ghost predicate Spliced(c: seq<Byte>, c1: seq<Byte>, pos: nat, buf: seq<Byte>) {
    && |c1| == Max(|c|, pos + |buf|)
    && (forall p {:trigger c1[p]} :: pos <= p < pos + |buf| ==> c1[p] == buf[p - pos])
    && (forall p :: 0 <= p < |c| && !(pos <= p < pos + |buf|) ==> c1[p] == c[p])
  }

  lemma SplicedExactly(c: seq<Byte>, c1: seq<Byte>, pos: nat, buf: seq<Byte>)
    requires Spliced(c, c1, pos, buf) && pos <= |c|
    ensures c1 == c[..pos] + buf + if pos + |buf| < |c| then c[pos + |buf|..] else []
  {
  }

  class FileSystem {
    const vol: Volume
    var openFiles: seq<OpenFile>

    constructor (volume: Volume)
      ensures vol == volume && openFiles == []
    {
      vol, openFiles := volume, [];
    }

    // the walk over openedFileList
    method IsOpen(file: OpenFile) returns (found: bool)
      ensures found <==> file in openFiles
    {
      var i := 0;
      while i < |openFiles|
        invariant i <= |openFiles| && file !in openFiles[..i]
      {
        if openFiles[i] == file { return true; }
        i := i + 1;
      }
      found := false;
    }

    // ktfs_fetch
    method Fetch(file: OpenFile, buf: array<Byte>, len: nat) returns (rc: int)
      requires vol.Valid() && (file in openFiles ==> file.Attached(vol))
      requires file.pos <= file.fileSize && len <= buf.Length && file.pos + len < 0x1_0000_0000_0000_0000
      modifies buf, file`pos
      ensures rc == if len == 0 then 0 else if file !in openFiles then -EINVAL
        else Min(len, file.fileSize - old(file.pos))
      ensures rc <= 0 ==> buf[..] == old(buf[..]) && file.pos == old(file.pos)
      ensures rc > 0 ==> file.pos == old(file.pos) + rc && Sized(vol.Img(), file.ino)
      ensures rc > 0 ==> Copied(old(buf[..]), buf[..], Content(vol.Img(), file.ino), old(file.pos), rc)
    {
      if len == 0 { return 0; }
      var found := IsOpen(file);
      if !found { return -EINVAL; }
      var m := if file.pos + len > file.fileSize then file.fileSize - file.pos else len;
      assert Sized(vol.Img(), file.ino);
      rc := Read(file, buf, m, Content(vol.Img(), file.ino));
    }

    // the copy loop of ktfs_fetch
    method Read(file: OpenFile, buf: array<Byte>, len: nat, ghost c: seq<Byte>) returns (rc: int)
      requires vol.Valid() && file.Attached(vol) && Sized(vol.Img(), file.ino) && c == Content(vol.Img(), file.ino)
      requires len <= buf.Length && file.pos + len <= file.fileSize
      modifies buf, file`pos
      ensures rc == len && file.pos == old(file.pos) + len
      ensures Copied(old(buf[..]), buf[..], c, old(file.pos), len)
    {
      var read := 0;
      while read < len
        invariant Between(file.pos, len, read)
        invariant file.pos == old(file.pos)
        invariant Copied(old(buf[..]), buf[..], c, file.pos, read)
      {
        var n, off, count := Chunk(file.pos, len, read);
        var ok := ReadPart(file, buf, read, n, off, count, old(buf[..]), c);
        if !ok { return -EINVAL; }
        read := read + count;
      }
      file.pos := file.pos + read;
      rc := read;
    }

    // one turn of it
    method ReadPart(file: OpenFile, buf: array<Byte>, read: nat, n: nat, off: nat, count: nat, ghost b0: seq<Byte>,
        ghost c: seq<Byte>)
        returns (ok: bool)
      requires vol.Valid() && file.Attached(vol) && Sized(vol.Img(), file.ino) && c == Content(vol.Img(), file.ino)
      requires 0 < count && off + count <= 512 && file.pos + read == 512 * n + off
      requires read + count <= buf.Length && file.pos + read + count <= file.fileSize
      requires Copied(b0, buf[..], c, file.pos, read)
      modifies buf
      ensures ok && Copied(b0, buf[..], c, file.pos, read + count)
    {
      var bytes;
      ok, bytes := ReadSlice(vol, file.ino, n, off, count);
      if !ok { return; }
      CopyOut(buf, read, bytes);
      CopiedMore(b0, old(buf[..]), buf[..], c, file.pos, read, bytes);
    }

    // ktfs_store
    method Store(file: OpenFile, buf: seq<Byte>) returns (rc: int)
      requires vol.Valid() && (file in openFiles ==> file.Attached(vol))
      requires file.pos + |buf| <= MAX_SIZE
      requires |vol.SpareBlocks()| >= NewBlocks(file.fileSize, Max(file.fileSize, file.pos + |buf|))
      modifies vol`data, vol`inodes, vol`dataBits, vol`owner, file`fileSize, file`pos
      ensures rc == if |buf| == 0 then 0 else if file !in openFiles then -EINVAL else |buf|
      ensures rc <= 0 ==> unchanged(vol) && unchanged(file)
      ensures rc > 0 ==> file.pos == old(file.pos) + |buf| && file.fileSize == Max(old(file.fileSize), file.pos)
      ensures rc > 0 ==> vol.Valid() && file.Attached(vol)
      ensures rc > 0 ==> StoreDone(old(vol.Img()), vol.Img(), vol.live, file.ino, old(file.pos), buf)
      ensures rc > 0 ==> Extends(old(vol.owner), vol.owner, file.ino, Blocks(old(file.fileSize)))
      ensures rc > 0 ==> |vol.SpareBlocks()| == |old(vol.SpareBlocks())| - NewBlocks(old(file.fileSize), file.fileSize)
    {
      if |buf| == 0 { return 0; }
      var found := IsOpen(file);
      if !found { return -EINVAL; }
      rc := Extend(file, file.pos + |buf|);
      if rc != 0 { return; }
      label L:
      rc := Write(file, buf);
      StoreIs(old(vol.Img()), old@L(vol.Img()), vol.Img(), vol.live, file.ino, old(file.pos), buf);
    }

    // makes the file at least end bytes long
    method Extend(file: OpenFile, end: nat) returns (rc: int)
      requires vol.Valid() && file.Attached(vol) && end <= MAX_SIZE
      requires |vol.SpareBlocks()| >= NewBlocks(file.fileSize, Max(file.fileSize, end))
      modifies vol`data, vol`inodes, vol`dataBits, vol`owner, file`fileSize
      ensures rc == 0 && file.fileSize == Max(old(file.fileSize), end) && vol.Valid() && file.Attached(vol)
      ensures Extends(old(vol.owner), vol.owner, file.ino, Blocks(old(file.fileSize)))
      ensures |vol.SpareBlocks()| == |old(vol.SpareBlocks())| - NewBlocks(old(file.fileSize), file.fileSize)
      ensures Resized(old(vol.Img()), vol.Img(), vol.live, file.ino)
    {
      if end > file.fileSize {
        rc := ChangeFileSize(vol, file, end);
        if rc != 0 { return; }
      }
      rc := 0;
    }

    // the copy loop of ktfs_store
    method Write(file: OpenFile, buf: seq<Byte>) returns (rc: int)
      requires vol.Valid() && file.Attached(vol) && file.pos + |buf| <= file.fileSize
      modifies vol`data, file`pos
      ensures rc == |buf| && file.pos == old(file.pos) + |buf| && vol.Valid()
      ensures Stored(old(vol.Img()), vol.Img(), vol.live, file.ino, old(file.pos), buf, |buf|)
    {
      var written := 0;
      while written < |buf|
        invariant Between(file.pos, |buf|, written)
        invariant file.pos == old(file.pos) && vol.Valid()
        invariant Stored(old(vol.Img()), vol.Img(), vol.live, file.ino, file.pos, buf, written)
      {
        var n, off, count := Chunk(file.pos, |buf|, written);
        var ok := WritePart(file, buf, written, n, off, count, old(vol.Img()));
        if !ok { return -EINVAL; }
        written := written + count;
      }
      file.pos := file.pos + written;
      rc := written;
    }

    // one turn of it
    method WritePart(file: OpenFile, buf: seq<Byte>, written: nat, n: nat, off: nat, count: nat, ghost d: Disk)
        returns (ok: bool)
      requires vol.Valid() && file.Attached(vol) && file.pos + |buf| <= file.fileSize
      requires 0 < count && off + count <= 512 && file.pos + written == 512 * n + off && written + count <= |buf|
      requires Stored(d, vol.Img(), vol.live, file.ino, file.pos, buf, written)
      modifies vol`data
      ensures ok && vol.Valid()
      ensures Stored(d, vol.Img(), vol.live, file.ino, file.pos, buf, written + count)
    {
      ByteInBlock(vol.Img(), vol.owner, vol.live, file.ino, n, off);
      var b;
      ok, b := FindBlock(vol, file.ino, n);
      if !ok { return; }
      vol.data := vol.data[b := Patch(vol.data[b], off, buf[written..written + count])];
      StoredMore(d, old(vol.Img()), vol.owner, vol.live, vol.Img(), file.ino, file.pos, buf, written, n, off, count);
    }
  }

  // What a store means: x is spliced, no other file's bytes or length change.
  ghost predicate StoreDone(d: Disk, d1: Disk, live: set<nat>, x: nat, pos: nat, buf: seq<Byte>) {
    forall y {:trigger y in live} :: y in live ==>
      Sized(d, y) && Sized(d1, y)
      && if y == x then Spliced(Content(d, y), Content(d1, y), pos, buf) else Content(d1, y) == Content(d, y)
  }

  lemma StoreIs(d: Disk, d1: Disk, d2: Disk, live: set<nat>, x: nat, pos: nat, buf: seq<Byte>)
    requires Resized(d, d1, live, x) && Stored(d1, d2, live, x, pos, buf, |buf|) && x in live
    requires d1.inodes[x].size == Max(d.inodes[x].size, pos + |buf|)
    ensures StoreDone(d, d2, live, x, pos, buf)
  {
    forall y {:trigger y in live} | y in live
      ensures Sized(d, y) && Sized(d2, y)
      ensures if y == x then Spliced(Content(d, y), Content(d2, y), pos, buf) else Content(d2, y) == Content(d, y)
    {
      forall p: nat | p < d1.inodes[y].size
        ensures Content(d2, y)[p] == if y == x && pos <= p < pos + |buf| then buf[p - pos] else Content(d1, y)[p]
      {
        assert Content(d2, y)[p] == ByteAt(d2, y, p);
      }
    }
  }
}
