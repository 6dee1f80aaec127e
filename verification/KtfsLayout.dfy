// On-disk shapes of the file system of sys/ktfs.h, and the three-tier block map as a tree of slots.

module KtfsLayout {
  import opened LittleEndian

  const BLKSZ: nat := 512
  const MAX_BLOCKS: nat := 32900

  type Block = b: seq<Byte> | |b| == BLKSZ witness seq(BLKSZ, _ => 0)

  type Word2 = s: seq<Word> | |s| == 2 witness [0, 0]
  type Word4 = s: seq<Word> | |s| == 4 witness [0, 0, 0, 0]

  datatype Inode = Inode(size: nat, block: Word4, indirect: Word, dindirect: Word2)

  datatype Disk = Disk(data: seq<Block>, inodes: seq<Inode>)

  // The k-th little-endian 32-bit word of an index block.
  function Ptr(b: Block, k: nat): Word
    requires k < 128
  {
    WordAt(b, 4 * k)
  }

  function PutPtr(b: Block, k: nat, v: Word): Block
    requires k < 128
  {
    b[..4 * k] + WordBytes(v) + b[4 * k + 4..]
  }

  lemma PutPtrBytes(b: Block, k: nat, v: Word, i: nat)
    requires k < 128 && i < 512
    ensures PutPtr(b, k, v)[i] == if 4 * k <= i < 4 * k + 4 then WordBytes(v)[i - 4 * k] else b[i]
  {
  }

  lemma PutPtrPtr(b: Block, k: nat, v: Word, j: nat)
    requires k < 128 && j < 128
    ensures Ptr(PutPtr(b, k, v), j) == if j == k then v else Ptr(b, j)
  {
    PutPtrBytes(b, k, v, 4 * j);
    PutPtrBytes(b, k, v, 4 * j + 1);
    PutPtrBytes(b, k, v, 4 * j + 2);
    PutPtrBytes(b, k, v, 4 * j + 3);
    if j == k { WordOfBytes(v, PutPtr(b, k, v), 4 * k); }
  }

  // A slot is a place that holds a block number: one of the seven of an inode (block[0..3], indirect,
  // dindirect[0..1]), or the k-th word of the index block that another slot points to.
  datatype Slot = Top(f: nat) | Sub(up: Slot, k: nat)

  function Root(s: Slot): nat {
    match s
    case Top(f) => f
    case Sub(up, _) => Root(up)
  }

  function Depth(s: Slot): nat {
    match s
    case Top(_) => 0
    case Sub(up, _) => Depth(up) + 1
  }

  // How many index blocks lie between an inode's field and the data.
  function Levels(f: nat): nat {
    if f < 4 then 0 else if f == 4 then 1 else 2
  }

  predicate ValidSlot(s: Slot) {
    match s
    case Top(f) => f < 7
    case Sub(up, k) => ValidSlot(up) && Depth(up) < Levels(Root(up)) && k < 128
  }

  // A slot that points to file data, not to an index block.
  predicate IsData(s: Slot) {
    Depth(s) == Levels(Root(s))
  }

  function Field(inode: Inode, f: nat): Word
    requires f < 7
  {
    if f < 4 then inode.block[f] else if f == 4 then inode.indirect else inode.dindirect[f - 5]
  }

  function SetField(inode: Inode, f: nat, v: Word): Inode
    requires f < 7
  {
    if f < 4 then inode.(block := inode.block[f := v])
    else if f == 4 then inode.(indirect := v)
    else inode.(dindirect := inode.dindirect[f - 5 := v])
  }

  // The block number held in slot s of an inode.
  function At(data: seq<Block>, inode: Inode, s: Slot): Word
    requires ValidSlot(s)
  {
    match s
    case Top(f) => Field(inode, f)
    case Sub(up, k) =>
      var b := At(data, inode, up);
      if b < |data| then Ptr(data[b], k) else 0
  }

  // The first file block that lies behind each field and each slot.
  function Base(f: nat): nat {
    if f <= 4 then f else 132 + (f - 5) * 16384
  }

  function Rank(s: Slot): nat {
    match s
    case Top(f) => Base(f)
    case Sub(up, k) => Rank(up) + (if Depth(up) + 1 == Levels(Root(up)) then k else 128 * k)
  }

  // The slot of the n-th block of a file.
  function DataSlot(n: nat): (s: Slot)
    requires n < MAX_BLOCKS
    ensures ValidSlot(s) && IsData(s)
  {
    if n < 4 then Top(n)
    else if n < 132 then Sub(Top(4), n - 4)
    else MapSlot((n - 132) / 16384, (n - 132) % 16384 / 128, (n - 132) % 16384 % 128)
  }

  function MapSlot(i: nat, j: nat, k: nat): (s: Slot)
    requires i < 2 && j < 128 && k < 128
    ensures s.Sub? && ValidSlot(s) && IsData(s) && ValidSlot(s.up) && !IsData(s.up)
  {
    Sub(Sub(Top(5 + i), j), k)
  }

  lemma MapSlotRank(i: nat, j: nat, k: nat)
    requires i < 2 && j < 128 && k < 128
    ensures Rank(MapSlot(i, j, k)) == 132 + 16384 * i + 128 * j + k
    ensures Rank(MapSlot(i, j, k).up) == 132 + 16384 * i + 128 * j
  {
  }

  lemma Split(n: nat)
    requires n < 32768
    ensures n == 16384 * (n / 16384) + 128 * (n % 16384 / 128) + n % 16384 % 128
    ensures n / 16384 < 2 && n % 16384 / 128 < 128
  {
  }

  lemma Joined(i: nat, j: nat, k: nat)
    requires i < 2 && j < 128 && k < 128
    ensures var n := 16384 * i + 128 * j + k;
      n < 32768 && n / 16384 == i && n % 16384 / 128 == j && n % 16384 % 128 == k
  {
    var n := 16384 * i + 128 * j + k;
    assert n % 16384 == 128 * j + k;
  }

  lemma DataSlotRank(n: nat)
    requires n < MAX_BLOCKS
    ensures Rank(DataSlot(n)) == n
  {
    if n >= 132 {
      Split(n - 132);
      MapSlotRank((n - 132) / 16384, (n - 132) % 16384 / 128, (n - 132) % 16384 % 128);
    }
  }

  // Every data slot is the slot of exactly one file block, the one its rank says.
  lemma DataSlotOfRank(s: Slot)
    requires ValidSlot(s) && IsData(s)
    ensures Rank(s) < MAX_BLOCKS && DataSlot(Rank(s)) == s
  {
    match s
    case Top(f) =>
    case Sub(Top(f), k) =>
    case Sub(Sub(Top(f), j), k) =>
      MapSlotRank(f - 5, j, k);
      Joined(f - 5, j, k);
  }

  // The index slots of rank n, outermost first: those that file block n is the first to need.
  predicate NeedsIndirect(n: nat) { n == 4 }
  predicate NeedsDouble(n: nat) { n >= 132 && (n - 132) % 16384 == 0 }
  predicate NeedsMiddle(n: nat) { n >= 132 && (n - 132) % 128 == 0 }

  function Middle(n: nat): (s: Slot)
    requires 132 <= n < MAX_BLOCKS
    ensures ValidSlot(s) && !IsData(s) && DataSlot(n).Sub? && DataSlot(n).up == s
  {
    DataSlot(n).up
  }

  lemma IndexSlotRank(n: nat)
    requires 132 <= n < MAX_BLOCKS
    ensures Rank(Middle(n)) <= n && (Rank(Middle(n)) == n <==> NeedsMiddle(n))
    ensures Middle(n) == Sub(Top(5 + (n - 132) / 16384), (n - 132) % 16384 / 128)
    ensures Rank(Top(5 + (n - 132) / 16384)) <= n
    ensures Rank(Top(5 + (n - 132) / 16384)) == n <==> NeedsDouble(n)
  {
    Split(n - 132);
    MapSlotRank((n - 132) / 16384, (n - 132) % 16384 / 128, (n - 132) % 16384 % 128);
  }

  // All slots of rank n.
  lemma SlotsOfRank(n: nat, s: Slot)
    requires n < MAX_BLOCKS && ValidSlot(s) && Rank(s) == n
    ensures s == DataSlot(n)
      || (NeedsIndirect(n) && s == Top(4))
      || (NeedsMiddle(n) && s == Middle(n))
      || (NeedsDouble(n) && s == Top(5 + (n - 132) / 16384))
  {
    match s
    case Top(f) =>
    case Sub(Top(f), k) =>
      if f > 4 { Joined(f - 5, k, 0); }
    case Sub(Sub(Top(f), j), k) =>
      DataSlotOfRank(s);
  }

  lemma RankBound(s: Slot)
    requires ValidSlot(s)
    ensures Rank(s) < MAX_BLOCKS && (s.Sub? ==> Rank(s.up) <= Rank(s))
  {
    match s
    case Top(f) =>
    case Sub(Top(f), k) =>
    case Sub(Sub(Top(f), j), k) =>
      MapSlotRank(f - 5, j, k);
  }

  // ROUND_UP(size, 512) / 512
  function Blocks(size: nat): nat {
    (size + 511) / 512
  }

  // How many blocks file block n brings in, and how many a file of n blocks has in all.
  function Cost(n: nat): nat {
    1 + (if NeedsIndirect(n) then 1 else 0) + (if NeedsDouble(n) then 1 else 0) + (if NeedsMiddle(n) then 1 else 0)
  }

  function Count(n: nat): nat {
    if n == 0 then 0 else Count(n - 1) + Cost(n - 1)
  }

  function CeilDiv(n: int, d: int): int
    requires d > 0
  {
    if n <= 0 then 0 else (n + d - 1) / d
  }

  lemma {:induction false} CountClosedForm(n: nat)
    ensures Count(n) == n + (if n > 4 then 1 else 0) + CeilDiv(n - 132, 128) + CeilDiv(n - 132, 16384)
  {
    if n > 0 {
      CountClosedForm(n - 1);
      if n > 132 { CeilStep128(n - 133); CeilStep16384(n - 133); }
    }
  }

  lemma CeilStep128(m: nat)
    ensures CeilDiv(m + 1, 128) == CeilDiv(m, 128) + if m % 128 == 0 then 1 else 0
  {
  }

  lemma CeilStep16384(m: nat)
    ensures CeilDiv(m + 1, 16384) == CeilDiv(m, 16384) + if m % 16384 == 0 then 1 else 0
  {
  }

  lemma {:induction false} CountGrows(m: nat, n: nat)
    requires m <= n
    ensures Count(n) >= Count(m) + (n - m)
  {
    if m < n { CountGrows(m, n - 1); }
  }
}
