// What the block cache of sys/cache.c means: a bounded list of cached blocks, most recently obtained
// first, in front of a disk. Device results are parameters of each operation.

module CacheSpec {
  import opened Errors
  import opened Sequences

  type Byte = bv8

  const BLKSZ: nat := 512
  const MAX_NODES: nat := 64

  type Block = b: seq<Byte> | |b| == BLKSZ witness seq(BLKSZ, _ => 0)

  // A cached block: blk_pos, data, dirty and refcnt of a cache_node.
  datatype Line = Line(blk: nat, data: Block, dirty: bool, refcnt: nat)

  datatype State = State(lines: seq<Line>, disk: seq<Block>)

  // "result < 512UL" with a signed 64-bit result: a negative result is compared as a huge number.
  predicate ShortTransfer(result: int) {
    (if result < 0 then result + 0x1_0000_0000_0000_0000 else result) < BLKSZ
  }

  // Position of the cached copy of blk, or the number of lines if there is none.
  function Find(lines: seq<Line>, blk: nat): (i: nat)
    ensures i <= |lines|
    ensures i < |lines| ==> lines[i].blk == blk
    ensures forall k :: 0 <= k < i ==> lines[k].blk != blk
  {
    if |lines| == 0 || lines[0].blk == blk then 0 else 1 + Find(lines[1..], blk)
  }

  // The last unpinned line, that is, the least recently obtained one; -1 if every line is pinned.
  function Victim(lines: seq<Line>): (v: int)
    ensures -1 <= v < |lines|
    ensures v >= 0 ==> lines[v].refcnt == 0
    ensures forall k :: v < k < |lines| ==> lines[k].refcnt != 0
  {
    if |lines| == 0 then -1
    else if lines[|lines| - 1].refcnt == 0 then |lines| - 1
    else Victim(lines[..|lines| - 1])
  }

  // What a store of data with this result leaves on the block: all of it, a prefix, or nothing.
  function Stored(before: Block, data: Block, result: int): (after: Block)
    requires result <= BLKSZ
    ensures result == BLKSZ ==> after == data
    ensures result <= 0 ==> after == before
  {
    if result <= 0 then before else data[..result] + before[result..]
  }

  // What a fetch into a zeroed node leaves in it.
  function Fetched(disk: seq<Block>, blk: nat, result: int): (data: Block)
    requires result <= BLKSZ
    ensures result == BLKSZ && blk < |disk| ==> data == disk[blk]
  {
    var zeros := seq(BLKSZ, _ => 0);
    if result <= 0 || blk >= |disk| then zeros else disk[blk][..result] + zeros[result..]
  }

  function StoreBlock(disk: seq<Block>, blk: nat, data: Block, result: int): seq<Block>
    requires result <= BLKSZ
  {
    if blk < |disk| then disk[blk := Stored(disk[blk], data, result)] else disk
  }

  // A transfer can be complete only inside the device.
  predicate PossibleResult(disk: seq<Block>, blk: nat, result: int) {
    -0x8000_0000_0000_0000 <= result <= BLKSZ && (result > 0 ==> blk < |disk|)
  }

  // cache_get_block, case by case.
  function Hit(s: State, i: nat): State
    requires i < |s.lines|
  {
    var line := s.lines[i].(refcnt := s.lines[i].refcnt + 1);
    s.(lines := [line] + Without(s.lines, i))
  }

  // Write-back of a dirty victim.
  function WriteBack(s: State, v: nat, stored: int): State
    requires v < |s.lines| && stored <= BLKSZ
  {
    if s.lines[v].dirty then s.(disk := StoreBlock(s.disk, s.lines[v].blk, s.lines[v].data, stored)) else s
  }

  function Evict(s: State, v: nat, stored: int): State
    requires v < |s.lines| && stored <= BLKSZ
  {
    var w := WriteBack(s, v, stored);
    if s.lines[v].dirty && ShortTransfer(stored) then w else w.(lines := Without(s.lines, v))
  }

  function Load(s: State, blk: nat, fetched: int): State
    requires fetched <= BLKSZ
  {
    if ShortTransfer(fetched) then s
    else s.(lines := [Line(blk, Fetched(s.disk, blk, fetched), false, 1)] + s.lines)
  }

  function MakeRoom(s: State, stored: int): (r: (State, int))
    requires stored <= BLKSZ
  {
    if |s.lines| != MAX_NODES then (s, 0) else
    var v := Victim(s.lines);
    if v < 0 then (s, -EBUSY)
    else (Evict(s, v, stored), if s.lines[v].dirty && ShortTransfer(stored) then -EIO else 0)
  }

  function Miss(s: State, blk: nat, stored: int, fetched: int): (r: (State, int))
    requires stored <= BLKSZ && fetched <= BLKSZ
  {
    var (room, rc) := MakeRoom(s, stored);
    if rc != 0 then (room, rc)
    else (Load(room, blk, fetched), if ShortTransfer(fetched) then -EIO else 0)
  }

  // stored and fetched are the results of the two device calls, if the operation gets that far.
  function Get(s: State, pos: nat, stored: int, fetched: int): (r: (State, int))
    requires stored <= BLKSZ && fetched <= BLKSZ
  {
    if pos % BLKSZ != 0 then (s, -EINVAL) else
    var blk := pos / BLKSZ;
    var i := Find(s.lines, blk);
    if i < |s.lines| then (Hit(s, i), 0) else Miss(s, blk, stored, fetched)
  }

  // cache_release_block of the line at i
  function Release(s: State, i: nat, dirty: bool): State
    requires i < |s.lines|
  {
    var l := s.lines[i];
    s.(lines := s.lines[i := l.(dirty := dirty || l.dirty, refcnt := if l.refcnt > 0 then l.refcnt - 1 else 0)])
  }

  // A holder of the block changes its contents.
  function Write(s: State, i: nat, data: Block): State
    requires i < |s.lines|
  {
    s.(lines := s.lines[i := s.lines[i].(data := data)])
  }

  function Cleaned(s: State, i: nat): State
    requires i < |s.lines|
  {
    s.(lines := s.lines[i := s.lines[i].(dirty := false)])
  }

  // cache_flush from line i on; results[k] is the device's answer for line k.
  function Flush(s: State, results: seq<int>, i: nat): (r: (State, int))
    requires |results| == |s.lines| && i <= |s.lines|
    requires forall k :: 0 <= k < |results| ==> results[k] <= BLKSZ
    decreases |s.lines| - i
  {
    if i == |s.lines| then (s, 0)
    else if !s.lines[i].dirty then Flush(s, results, i + 1)
    else
      var w := WriteBack(s, i, results[i]);
      if ShortTransfer(results[i]) then (w, -EIO)
      else Flush(Cleaned(w, i), results, i + 1)
  }
}
