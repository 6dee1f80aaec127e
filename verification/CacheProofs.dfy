// The cache refines the disk it speeds up.

module CacheProofs {
  import opened Errors
  import opened Sequences
  import opened CacheSpec

  predicate Distinct(lines: seq<Line>) {
    forall i, j :: 0 <= i < j < |lines| ==> lines[i].blk != lines[j].blk
  }

  // A clean, unpinned line agrees with the disk.
  predicate Clean(s: State, l: Line) {
    l.blk < |s.disk| && (!l.dirty && l.refcnt == 0 ==> l.data == s.disk[l.blk])
  }

  ghost predicate Inv(s: State) {
    && Distinct(s.lines) && |s.lines| <= MAX_NODES
    && (forall i :: 0 <= i < |s.lines| ==> Clean(s, s.lines[i]))
  }

  // The contents of block b as a user of the cache sees them.
  function View(s: State, b: nat): Block
    requires b < |s.disk|
  {
    var i := Find(s.lines, b);
    if i < |s.lines| then s.lines[i].data else s.disk[b]
  }

  ghost predicate SameView(s: State, t: State) {
    && |s.disk| == |t.disk|
    && (forall b: nat :: b < |s.disk| ==> View(t, b) == View(s, b))
  }

  lemma FindIs(lines: seq<Line>, i: nat)
    requires i < |lines| && Distinct(lines)
    ensures Find(lines, lines[i].blk) == i
  {
  }

  lemma FindNone(lines: seq<Line>, b: nat)
    requires forall k :: 0 <= k < |lines| ==> lines[k].blk != b
    ensures Find(lines, b) == |lines|
  {
  }

  // A view is determined by which line holds which data, not by the order of lines.
  lemma ViewFromLine(s: State, b: nat, i: nat)
    requires b < |s.disk| && i < |s.lines| && Distinct(s.lines) && s.lines[i].blk == b
    ensures View(s, b) == s.lines[i].data
  {
    FindIs(s.lines, i);
  }

  lemma WithoutAt<T>(s: seq<T>, i: nat)
    requires i < |s|
    ensures |Without(s, i)| == |s| - 1
    ensures forall k :: 0 <= k < i ==> Without(s, i)[k] == s[k]
    ensures forall k :: i <= k < |s| - 1 ==> Without(s, i)[k] == s[k + 1]
  {
  }

  // Same lines up to order, and equal disk blocks where no line is cached: same view.
  lemma HitKeeps(s: State, i: nat)
    requires Inv(s) && i < |s.lines|
    ensures Inv(Hit(s, i)) && SameView(s, Hit(s, i))
  {
    var t := Hit(s, i);
    HitInv(s, i);
    forall b: nat | b < |s.disk| ensures View(t, b) == View(s, b) {
      HitFind(s, i, b);
    }
  }

  lemma HitInv(s: State, i: nat)
    requires Inv(s) && i < |s.lines|
    ensures Inv(Hit(s, i))
  {
    var t := Hit(s, i);
    WithoutAt(s.lines, i);
    forall k | 0 <= k < |t.lines| ensures Clean(t, t.lines[k]) {
      assert Clean(s, s.lines[if k == 0 then i else if k <= i then k - 1 else k]);
    }
  }

  predicate SameLine(l: Line, l1: Line, pins: nat) {
    l1.data == l.data && l1.refcnt == l.refcnt + pins
  }

  // Where block b is found after a hit on line i.
  lemma HitFind(s: State, i: nat, b: nat)
    requires Inv(s) && i < |s.lines|
    ensures Find(s.lines, b) == |s.lines| ==> Find(Hit(s, i).lines, b) == |s.lines|
    ensures Find(s.lines, b) < |s.lines| ==> Find(Hit(s, i).lines, b) < |s.lines|
    ensures var k, j := Find(s.lines, b), Find(Hit(s, i).lines, b);
      k < |s.lines| ==> SameLine(s.lines[k], Hit(s, i).lines[j], if k == i then 1 else 0)
  {
    var k, t := Find(s.lines, b), Hit(s, i);
    HitInv(s, i);
    WithoutAt(s.lines, i);
    if k < |s.lines| {
      FindIs(t.lines, if k == i then 0 else if k < i then k + 1 else k);
    } else {
      FindNone(t.lines, b);
    }
  }

  // Storing a line's data changes the disk only below the line.
  lemma WriteBackKeeps(s: State, v: nat, stored: int)
    requires Inv(s) && v < |s.lines| && stored <= BLKSZ
    ensures var w := WriteBack(s, v, stored);
      && w.lines == s.lines && SameView(s, w)
      && (forall b: nat :: b < |s.disk| && b != s.lines[v].blk ==> w.disk[b] == s.disk[b])
      && (forall k :: 0 <= k < |s.lines| && k != v ==> Clean(w, s.lines[k]))
      && (s.lines[v].dirty && stored == BLKSZ ==> w.disk[s.lines[v].blk] == s.lines[v].data)
      && s.lines[v].blk < |w.disk|
  {
    assert Clean(s, s.lines[v]);
    forall k | 0 <= k < |s.lines| && k != v ensures Clean(WriteBack(s, v, stored), s.lines[k]) {
      assert Clean(s, s.lines[k]);
    }
  }

  // Dropping a line whose data is on the disk.
  lemma DropKeeps(s: State, v: nat)
    requires Distinct(s.lines) && |s.lines| <= MAX_NODES && v < |s.lines|
    requires forall k :: 0 <= k < |s.lines| && k != v ==> Clean(s, s.lines[k])
    requires s.lines[v].blk < |s.disk| && s.lines[v].data == s.disk[s.lines[v].blk]
    ensures Inv(s.(lines := Without(s.lines, v))) && SameView(s, s.(lines := Without(s.lines, v)))
  {
    var t := s.(lines := Without(s.lines, v));
    WithoutAt(s.lines, v);
    forall k | 0 <= k < |t.lines| ensures Clean(t, t.lines[k]) {
      assert Clean(s, s.lines[if k < v then k else k + 1]);
    }
    forall b: nat | b < |s.disk| ensures View(t, b) == View(s, b) {
      var k := Find(s.lines, b);
      if k < |s.lines| && k != v {
        ViewFromLine(t, b, if k < v then k else k - 1);
      } else {
        FindNone(t.lines, b);
      }
    }
  }

  lemma EvictKeeps(s: State, v: nat, stored: int)
    requires Inv(s) && v < |s.lines| && s.lines[v].refcnt == 0 && 0 <= stored <= BLKSZ
    ensures Inv(Evict(s, v, stored)) && SameView(s, Evict(s, v, stored))
  {
    var w := WriteBack(s, v, stored);
    WriteBackKeeps(s, v, stored);
    assert Clean(s, s.lines[v]);
    if s.lines[v].dirty && ShortTransfer(stored) {
      forall k | 0 <= k < |w.lines| ensures Clean(w, w.lines[k]) {}
    } else {
      DropKeeps(w, v);
    }
  }

  lemma LoadKeeps(s: State, blk: nat, fetched: int)
    requires Inv(s) && Find(s.lines, blk) == |s.lines| < MAX_NODES
    requires PossibleResult(s.disk, blk, fetched) && 0 <= fetched
    ensures Inv(Load(s, blk, fetched)) && SameView(s, Load(s, blk, fetched))
  {
    var t := Load(s, blk, fetched);
    if !ShortTransfer(fetched) {
      forall k | 0 <= k < |t.lines| ensures Clean(t, t.lines[k]) {
        if k > 0 { assert Clean(s, s.lines[k - 1]); }
      }
      forall b: nat | b < |s.disk| ensures View(t, b) == View(s, b) {
        var k := Find(s.lines, b);
        if k < |s.lines| {
          ViewFromLine(t, b, k + 1);
        } else if b != blk {
          FindNone(t.lines, b);
        }
      }
    }
  }

  // How often block b is pinned.
  function Pins(s: State, b: nat): nat {
    var i := Find(s.lines, b);
    if i < |s.lines| then s.lines[i].refcnt else 0
  }

  // The block cache_get_block has to give up, if it needs to give one up.
  predicate NeedsVictim(s: State, pos: nat) {
    pos % BLKSZ == 0 && Find(s.lines, pos / BLKSZ) == |s.lines| == MAX_NODES
  }

  // What obtaining block b leaves: the same view, one more pin on b if it was obtained and on no other block,
  // and its data at the front of the list.
  ghost predicate Got(s: State, t: State, rc: int, b: nat) {
    && Inv(t) && SameView(s, t)
    && (rc == 0 ==> |t.lines| > 0 && t.lines[0].blk == b < |s.disk| && t.lines[0].data == View(s, b))
    && (forall c: nat {:trigger Pins(t, c)} :: Pins(t, c) == Pins(s, c) + (if rc == 0 && c == b then 1 else 0))
  }

  // With device results between 0 and 512, cache_get_block keeps what every block shows, pins exactly
  // the block asked for and no other, hence never gives up a pinned block.
  lemma GetKeeps(s: State, pos: nat, stored: int, fetched: int)
    requires Inv(s) && 0 <= stored <= BLKSZ && 0 <= fetched && PossibleResult(s.disk, pos / BLKSZ, fetched)
    ensures Got(s, Get(s, pos, stored, fetched).0, Get(s, pos, stored, fetched).1, pos / BLKSZ)
    ensures Get(s, pos, stored, fetched).1 == -EBUSY
      <==> NeedsVictim(s, pos) && forall k :: 0 <= k < |s.lines| ==> s.lines[k].refcnt > 0
  {
    var blk := pos / BLKSZ;
    if pos % BLKSZ == 0 {
      if Find(s.lines, blk) < |s.lines| {
        HitGot(s, Find(s.lines, blk));
      } else {
        MissGot(s, blk, stored, fetched);
      }
    }
  }

  lemma HitGot(s: State, i: nat)
    requires Inv(s) && i < |s.lines|
    ensures Got(s, Hit(s, i), 0, s.lines[i].blk)
  {
    HitKeeps(s, i);
    HitPins(s, i);
    assert Clean(s, s.lines[i]);
    ViewFromLine(s, s.lines[i].blk, i);
  }

  lemma MissGot(s: State, blk: nat, stored: int, fetched: int)
    requires Inv(s) && 0 <= stored <= BLKSZ && 0 <= fetched && PossibleResult(s.disk, blk, fetched)
    requires Find(s.lines, blk) == |s.lines|
    ensures Got(s, Miss(s, blk, stored, fetched).0, Miss(s, blk, stored, fetched).1, blk)
    ensures Miss(s, blk, stored, fetched).1 == -EBUSY
      <==> |s.lines| == MAX_NODES && forall k :: 0 <= k < |s.lines| ==> s.lines[k].refcnt > 0
  {
    var (room, rc) := MakeRoom(s, stored);
    RoomKeeps(s, blk, stored);
    if rc == 0 {
      LoadKeeps(room, blk, fetched);
      LoadPins(room, blk, fetched);
    }
  }

  // Making room keeps the view and every pin, and does not load anything.
  lemma RoomKeeps(s: State, blk: nat, stored: int)
    requires Inv(s) && 0 <= stored <= BLKSZ && Find(s.lines, blk) == |s.lines|
    ensures var (t, rc) := MakeRoom(s, stored);
      && Inv(t) && SameView(s, t) && Find(t.lines, blk) == |t.lines|
      && (forall c: nat {:trigger Pins(t, c)} :: Pins(t, c) == Pins(s, c))
      && (rc == 0 ==> |t.lines| < MAX_NODES) && |t.disk| == |s.disk|
      && (rc == -EBUSY <==> |s.lines| == MAX_NODES && forall k :: 0 <= k < |s.lines| ==> s.lines[k].refcnt > 0)
  {
    if |s.lines| == MAX_NODES {
      var v := Victim(s.lines);
      if v >= 0 {
        EvictKeeps(s, v, stored);
        EvictPins(s, v, stored);
        FindNone(Evict(s, v, stored).lines, blk);
      }
    }
  }

  lemma HitPins(s: State, i: nat)
    requires Inv(s) && i < |s.lines|
    ensures forall b: nat :: Pins(Hit(s, i), b) == Pins(s, b) + (if b == s.lines[i].blk then 1 else 0)
  {
    FindIs(s.lines, i);
    forall b: nat ensures Pins(Hit(s, i), b) == Pins(s, b) + (if b == s.lines[i].blk then 1 else 0) {
      HitFind(s, i, b);
    }
  }

  lemma EvictPins(s: State, v: nat, stored: int)
    requires Inv(s) && v < |s.lines| && s.lines[v].refcnt == 0 && stored <= BLKSZ
    ensures forall b: nat :: Pins(Evict(s, v, stored), b) == Pins(s, b)
  {
    var t := Evict(s, v, stored);
    WithoutAt(s.lines, v);
    forall b: nat ensures Pins(t, b) == Pins(s, b) {
      var k := Find(s.lines, b);
      if |t.lines| < |s.lines| {
        if k < |s.lines| && k != v {
          FindIs(t.lines, if k < v then k else k - 1);
        } else {
          FindNone(t.lines, b);
        }
      }
    }
  }

  lemma LoadPins(s: State, blk: nat, fetched: int)
    requires Find(s.lines, blk) == |s.lines| && Distinct(s.lines) && fetched <= BLKSZ
    ensures forall b: nat ::
      Pins(Load(s, blk, fetched), b) == Pins(s, b) + (if b == blk && !ShortTransfer(fetched) then 1 else 0)
  {
    var t := Load(s, blk, fetched);
    if !ShortTransfer(fetched) {
      forall b: nat ensures Pins(t, b) == Pins(s, b) + (if b == blk then 1 else 0) {
        var k := Find(s.lines, b);
        if k < |s.lines| {
          FindIs(t.lines, k + 1);
        } else if b != blk {
          FindNone(t.lines, b);
        }
      }
    }
  }

  // A negative device result passes the test "result < 512UL". The view then changes exactly if the
  // data of a dirty victim never reached the disk, or a zeroed node stands for a block that is not zero.
  predicate StoreLost(s: State, pos: nat, stored: int) {
    NeedsVictim(s, pos) && Victim(s.lines) >= 0 && stored < 0
    && var l := s.lines[Victim(s.lines)]; l.dirty && l.blk < |s.disk| && l.data != s.disk[l.blk]
  }

  predicate FetchLost(s: State, pos: nat, stored: int, fetched: int) {
    && pos % BLKSZ == 0 && Find(s.lines, pos / BLKSZ) == |s.lines| && fetched < 0
    && (NeedsVictim(s, pos) ==>
          Victim(s.lines) >= 0 && !(s.lines[Victim(s.lines)].dirty && ShortTransfer(stored)))
    && pos / BLKSZ < |s.disk| && s.disk[pos / BLKSZ] != seq(BLKSZ, _ => 0)
  }

  lemma GetKeepsViewExactlyUnlessLost(s: State, pos: nat, stored: int, fetched: int)
    requires Inv(s) && PossibleResult(s.disk, pos / BLKSZ, fetched)
    requires -0x8000_0000_0000_0000 <= stored <= BLKSZ
    ensures SameView(s, Get(s, pos, stored, fetched).0) <==>
      !StoreLost(s, pos, stored) && !FetchLost(s, pos, stored, fetched)
  {
    var blk := pos / BLKSZ;
    if pos % BLKSZ == 0 {
      if Find(s.lines, blk) < |s.lines| {
        HitKeeps(s, Find(s.lines, blk));
      } else if |s.lines| == MAX_NODES {
        EvictionKeepsView(s, pos, stored, fetched);
      } else {
        LoadView(s, blk, fetched);
      }
    }
  }

  lemma EvictionKeepsView(s: State, pos: nat, stored: int, fetched: int)
    requires Inv(s) && PossibleResult(s.disk, pos / BLKSZ, fetched) && -0x8000_0000_0000_0000 <= stored <= BLKSZ
    requires pos % BLKSZ == 0 && Find(s.lines, pos / BLKSZ) == |s.lines| == MAX_NODES
    ensures SameView(s, Miss(s, pos / BLKSZ, stored, fetched).0)
      <==> !StoreLost(s, pos, stored) && !FetchLost(s, pos, stored, fetched)
  {
    var blk := pos / BLKSZ;
    var v := Victim(s.lines);
    if v >= 0 {
      EvictView(s, v, stored);
      var e := Evict(s, v, stored);
      EvictLines(s, v, stored);
      if !(s.lines[v].dirty && ShortTransfer(stored)) {
        FindNone(e.lines, blk);
        LoadView(e, blk, fetched);
        assert blk != s.lines[v].blk;
      }
    }
  }

  // What a block shows after an eviction, whatever the device said.
  lemma EvictView(s: State, v: nat, stored: int)
    requires Inv(s) && v < |s.lines| && s.lines[v].refcnt == 0 && -0x8000_0000_0000_0000 <= stored <= BLKSZ
    ensures var t := Evict(s, v, stored);
      && |t.disk| == |s.disk| && s.lines[v].blk < |s.disk|
      && (forall b: nat :: b < |s.disk| && b != s.lines[v].blk ==> View(t, b) == View(s, b))
      && View(t, s.lines[v].blk) ==
           (if s.lines[v].dirty && stored < 0 then s.disk[s.lines[v].blk] else s.lines[v].data)
      && View(s, s.lines[v].blk) == s.lines[v].data
  {
    var t := Evict(s, v, stored);
    assert Clean(s, s.lines[v]);
    ViewFromLine(s, s.lines[v].blk, v);
    WithoutAt(s.lines, v);
    WriteBackKeeps(s, v, stored);
    if stored >= 0 || !s.lines[v].dirty {
      EvictKeeps(s, v, if stored >= 0 then stored else 0);
    } else {
      FindNone(t.lines, s.lines[v].blk);
      forall b: nat | b < |s.disk| && b != s.lines[v].blk ensures View(t, b) == View(s, b) {
        var k := Find(s.lines, b);
        if k < |s.lines| {
          ViewFromLine(t, b, if k < v then k else k - 1);
        } else {
          FindNone(t.lines, b);
        }
      }
    }
  }

  lemma EvictLines(s: State, v: nat, stored: int)
    requires Inv(s) && v < |s.lines| && stored <= BLKSZ
    ensures Distinct(Evict(s, v, stored).lines)
    ensures forall l :: l in Evict(s, v, stored).lines ==> l in s.lines
    ensures var t := Evict(s, v, stored);
      forall b: nat :: b < |s.disk| && b != s.lines[v].blk ==> b < |t.disk| && t.disk[b] == s.disk[b]
  {
    WithoutAt(s.lines, v);
  }

  lemma LoadView(s: State, blk: nat, fetched: int)
    requires Distinct(s.lines) && Find(s.lines, blk) == |s.lines| && PossibleResult(s.disk, blk, fetched)
    ensures var t := Load(s, blk, fetched);
      && |t.disk| == |s.disk|
      && (forall b: nat :: b < |s.disk| && b != blk ==> View(t, b) == View(s, b))
      && (blk < |s.disk| ==> View(s, blk) == s.disk[blk])
      && (blk < |s.disk| ==> View(t, blk) == if fetched < 0 then seq(BLKSZ, _ => 0) else s.disk[blk])
  {
    var t := Load(s, blk, fetched);
    if !ShortTransfer(fetched) {
      forall b: nat | b < |s.disk| && b != blk ensures View(t, b) == View(s, b) {
        var k := Find(s.lines, b);
        if k < |s.lines| {
          ViewFromLine(t, b, k + 1);
        } else {
          FindNone(t.lines, b);
        }
      }
    }
  }

  // A dirty block whose store failed with -EIO is dropped and lost.
  lemma FailedStoreLosesBlock(b: Block, d: Block)
    requires b != d
    ensures var full := seq(MAX_NODES, k requires 0 <= k < MAX_NODES => Line(k, b, true, 0));
      var s := State(full, seq(MAX_NODES + 1, _ => d));
      Inv(s) && Get(s, MAX_NODES * BLKSZ, -EIO, BLKSZ).1 == 0 && !SameView(s, Get(s, MAX_NODES * BLKSZ, -EIO, BLKSZ).0)
  {
    var full := seq(MAX_NODES, k requires 0 <= k < MAX_NODES => Line(k, b, true, 0));
    var s := State(full, seq(MAX_NODES + 1, _ => d));
    FindNone(s.lines, MAX_NODES);
    GetKeepsViewExactlyUnlessLost(s, MAX_NODES * BLKSZ, -EIO, BLKSZ);
    assert Victim(s.lines) == MAX_NODES - 1;
    assert s.lines[MAX_NODES - 1].data != s.disk[MAX_NODES - 1];
  }

  // An honest release: a block that was changed since it was last clean is reported dirty, at the latest
  // by its last holder.
  predicate Honest(s: State, i: nat, dirty: bool)
    requires i < |s.lines|
  {
    var l := s.lines[i];
    dirty || l.dirty || l.refcnt > 1 || (l.blk < |s.disk| && l.data == s.disk[l.blk])
  }

  lemma ReleaseKeeps(s: State, i: nat, dirty: bool)
    requires Inv(s) && i < |s.lines| && s.lines[i].refcnt > 0 && Honest(s, i, dirty)
    ensures Inv(Release(s, i, dirty)) && SameView(s, Release(s, i, dirty))
  {
    var t := Release(s, i, dirty);
    forall k | 0 <= k < |t.lines| ensures Clean(t, t.lines[k]) { assert Clean(s, s.lines[k]); }
    SameLinesSameView(s, t);
  }

  // Changing only dirty bits, pin counts and disk blocks below cached lines changes no view.
  lemma SameLinesSameView(s: State, t: State)
    requires |s.disk| == |t.disk| && |s.lines| == |t.lines| && Distinct(s.lines)
    requires forall k :: 0 <= k < |s.lines| ==> t.lines[k].blk == s.lines[k].blk && t.lines[k].data == s.lines[k].data
    requires forall b: nat :: b < |s.disk| && Find(s.lines, b) == |s.lines| ==> t.disk[b] == s.disk[b]
    ensures SameView(s, t)
  {
    forall b: nat | b < |s.disk| ensures View(t, b) == View(s, b) {
      var k := Find(s.lines, b);
      if k < |s.lines| {
        ViewFromLine(t, b, k);
      } else {
        FindNone(t.lines, b);
      }
    }
  }

  lemma WriteShows(s: State, i: nat, data: Block)
    requires Inv(s) && i < |s.lines| && s.lines[i].refcnt > 0
    ensures Inv(Write(s, i, data)) && s.lines[i].blk < |s.disk|
    ensures forall b: nat :: b < |s.disk| ==>
      View(Write(s, i, data), b) == if b == s.lines[i].blk then data else View(s, b)
  {
    var t := Write(s, i, data);
    forall k | 0 <= k < |t.lines| ensures Clean(t, t.lines[k]) { assert Clean(s, s.lines[k]); }
    forall b: nat | b < |s.disk| ensures View(t, b) == if b == s.lines[i].blk then data else View(s, b) {
      var k := Find(s.lines, b);
      if k < |s.lines| {
        ViewFromLine(t, b, k);
      } else {
        FindNone(t.lines, b);
      }
    }
  }

  // Lines of different blocks, all on the disk.
  predicate Placed(s: State) {
    Distinct(s.lines) && forall k :: 0 <= k < |s.lines| ==> s.lines[k].blk < |s.disk|
  }

  // A flush from s to t has marked line k clean.
  predicate Settled(s: State, t: State, k: nat)
    requires |s.lines| == |t.lines| && k < |s.lines|
  {
    s.lines[k].dirty && !t.lines[k].dirty
  }

  predicate LongResults(s: State, results: seq<int>) {
    |results| == |s.lines| && forall k :: 0 <= k < |results| ==> -0x8000_0000_0000_0000 <= results[k] <= BLKSZ
  }

  // What flushing from line i on does, whatever the device says: the lines stay, but for dirty bits; a line
  // marked clean is on the disk if its result was not negative, and else the disk block is as it was.
  ghost predicate Flushed(s: State, results: seq<int>, i: nat, t: State)
    requires |results| == |s.lines|
  {
    && |t.lines| == |s.lines| && |t.disk| == |s.disk|
    && (forall k :: 0 <= k < |s.lines| ==> t.lines[k] == s.lines[k].(dirty := t.lines[k].dirty))
    && (forall k :: 0 <= k < |s.lines| ==> (t.lines[k].dirty ==> s.lines[k].dirty))
    && (forall k :: 0 <= k < i && k < |s.lines| ==> t.lines[k] == s.lines[k])
    && (forall b: nat :: b < |s.disk| && NotFrom(s, i, b) ==> t.disk[b] == s.disk[b])
    && (forall k :: i <= k < |s.lines| && s.lines[k].blk < |s.disk| && !t.lines[k].dirty ==>
          t.disk[s.lines[k].blk] ==
            if Settled(s, t, k) && results[k] >= 0 then s.lines[k].data else s.disk[s.lines[k].blk])
  }

  // No line from i on caches block b.
  predicate NotFrom(s: State, i: nat, b: nat) {
    forall k :: i <= k < |s.lines| ==> s.lines[k].blk != b
  }

  lemma {:induction false} FlushIs(s: State, results: seq<int>, i: nat)
    requires Placed(s) && LongResults(s, results) && i <= |s.lines|
    ensures var (t, rc) := Flush(s, results, i);
      && Flushed(s, results, i, t)
      && (rc == 0 ==> forall k :: i <= k < |s.lines| ==> !t.lines[k].dirty)
    decreases |s.lines| - i
  {
    if i < |s.lines| {
      if s.lines[i].dirty {
        if !ShortTransfer(results[i]) {
          var c := Cleaned(WriteBack(s, i, results[i]), i);
          FlushIs(c, results, i + 1);
          FlushedStep(s, results, i, Flush(c, results, i + 1).0);
        } else {
          FlushedStop(s, results, i);
        }
      } else {
        FlushIs(s, results, i + 1);
        FlushedSkip(s, results, i, Flush(s, results, i + 1).0);
      }
    }
  }

  lemma {:induction false} FlushReports(s: State, results: seq<int>, i: nat)
    requires LongResults(s, results) && i <= |s.lines|
    ensures Flush(s, results, i).1 ==
      if exists k :: i <= k < |s.lines| && s.lines[k].dirty && 0 <= results[k] < BLKSZ then -EIO else 0
    decreases |s.lines| - i
  {
    if i < |s.lines| {
      if s.lines[i].dirty && !ShortTransfer(results[i]) {
        var c := Cleaned(WriteBack(s, i, results[i]), i);
        FlushReports(c, results, i + 1);
        assert forall k :: i < k < |s.lines| ==> c.lines[k] == s.lines[k];
      } else if !s.lines[i].dirty {
        FlushReports(s, results, i + 1);
      }
    }
  }

  lemma FlushedStop(s: State, results: seq<int>, i: nat)
    requires Placed(s) && LongResults(s, results) && i < |s.lines| && s.lines[i].dirty && ShortTransfer(results[i])
    ensures Flushed(s, results, i, WriteBack(s, i, results[i])) && WriteBack(s, i, results[i]).lines == s.lines
  {
  }

  lemma FlushedSkip(s: State, results: seq<int>, i: nat, t: State)
    requires LongResults(s, results) && i < |s.lines| && !s.lines[i].dirty && Distinct(s.lines)
    requires Flushed(s, results, i + 1, t)
    ensures Flushed(s, results, i, t)
  {
    if s.lines[i].blk < |s.disk| { assert NotFrom(s, i + 1, s.lines[i].blk); }
    forall b: nat | b < |s.disk| && NotFrom(s, i, b) ensures t.disk[b] == s.disk[b] {
      assert NotFrom(s, i + 1, b);
    }
  }

  lemma FlushedStep(s: State, results: seq<int>, i: nat, t: State)
    requires Placed(s) && LongResults(s, results) && i < |s.lines| && s.lines[i].dirty && !ShortTransfer(results[i])
    requires Flushed(Cleaned(WriteBack(s, i, results[i]), i), results, i + 1, t)
    ensures Flushed(s, results, i, t) && !t.lines[i].dirty
  {
    var c := Cleaned(WriteBack(s, i, results[i]), i);
    assert c.disk == s.disk[s.lines[i].blk := if results[i] >= 0 then s.lines[i].data else s.disk[s.lines[i].blk]];
    assert NotFrom(c, i + 1, s.lines[i].blk);
    forall b: nat | b < |s.disk| && NotFrom(s, i, b) ensures t.disk[b] == s.disk[b] {
      assert NotFrom(c, i + 1, b);
    }
  }

  // A flush keeps what every block shows, with any results. It keeps the invariant exactly unless a negative
  // result marks an unpinned line clean that the disk does not agree with.
  lemma FlushKeeps(s: State, results: seq<int>)
    requires Inv(s) && LongResults(s, results)
    ensures var (t, rc) := Flush(s, results, 0);
      && Flushed(s, results, 0, t) && SameView(s, t)
      && (Inv(t) <==> forall k: nat :: k < |s.lines| && s.lines[k].refcnt == 0 ==> !FlushLost(s, results, t, k))
  {
    var (t, rc) := Flush(s, results, 0);
    forall k | 0 <= k < |s.lines| ensures s.lines[k].blk < |s.disk| { assert Clean(s, s.lines[k]); }
    FlushIs(s, results, 0);
    forall b: nat | b < |s.disk| && Find(s.lines, b) == |s.lines| ensures t.disk[b] == s.disk[b] {
      assert NotFrom(s, 0, b);
    }
    SameLinesSameView(s, t);
    forall k: nat | k < |s.lines| && s.lines[k].refcnt == 0
      ensures Clean(t, t.lines[k]) <==> !FlushLost(s, results, t, k)
    {
      assert Clean(s, s.lines[k]);
    }
    forall k | 0 <= k < |s.lines| && s.lines[k].refcnt > 0 ensures Clean(t, t.lines[k]) { assert Clean(s, s.lines[k]); }
  }

  // A negative result passed for success, and the data of line k never reached the disk.
  predicate FlushLost(s: State, results: seq<int>, t: State, k: nat)
    requires |results| == |s.lines| == |t.lines| && k < |s.lines|
  {
    Settled(s, t, k) && results[k] < 0 && s.lines[k].blk < |s.disk| && s.lines[k].data != s.disk[s.lines[k].blk]
  }

  // A flush with nothing pinned that reports success leaves on the disk what the cache showed exactly if every
  // dirty line with a negative result agreed with the disk before. It reports success exactly if no dirty line
  // got a result from 0 to 511.
  lemma FlushSettles(s: State, results: seq<int>)
    requires Inv(s) && LongResults(s, results)
    requires forall k :: 0 <= k < |s.lines| ==> s.lines[k].refcnt == 0
    ensures var (t, rc) := Flush(s, results, 0);
      && |t.disk| == |s.disk|
      && (rc == 0 ==>
            ((forall b: nat :: b < |s.disk| ==> t.disk[b] == View(s, b)) <==>
             (forall k :: 0 <= k < |s.lines| && s.lines[k].dirty && results[k] < 0 ==>
                s.lines[k].blk < |s.disk| && s.lines[k].data == s.disk[s.lines[k].blk])))
      && rc == if exists k :: 0 <= k < |s.lines| && s.lines[k].dirty && 0 <= results[k] < BLKSZ then -EIO else 0
  {
    FlushReports(s, results, 0);
    var (t, rc) := Flush(s, results, 0);
    forall k | 0 <= k < |s.lines| ensures s.lines[k].blk < |s.disk| { assert Clean(s, s.lines[k]); }
    FlushIs(s, results, 0);
    if rc == 0 {
      forall k: nat | k < |s.lines|
        ensures s.lines[k].blk < |s.disk| && View(s, s.lines[k].blk) == s.lines[k].data
        ensures t.disk[s.lines[k].blk] == s.lines[k].data <==>
          (s.lines[k].dirty && results[k] < 0 ==> s.lines[k].data == s.disk[s.lines[k].blk])
      {
        SettledBlock(s, results, t, k);
      }
      forall b: nat | b < |s.disk| && Find(s.lines, b) == |s.lines| ensures t.disk[b] == View(s, b) {
        assert NotFrom(s, 0, b);
      }
      forall b: nat | b < |s.disk| && Find(s.lines, b) < |s.lines| ensures s.lines[Find(s.lines, b)].blk == b {}
    }
  }

  lemma SettledBlock(s: State, results: seq<int>, t: State, k: nat)
    requires Inv(s) && LongResults(s, results) && Flushed(s, results, 0, t)
    requires k < |s.lines| && s.lines[k].refcnt == 0 && !t.lines[k].dirty
    ensures s.lines[k].blk < |s.disk| && View(s, s.lines[k].blk) == s.lines[k].data
    ensures t.disk[s.lines[k].blk] == s.lines[k].data <==>
      (s.lines[k].dirty && results[k] < 0 ==> s.lines[k].data == s.disk[s.lines[k].blk])
  {
    assert Clean(s, s.lines[k]);
    ViewFromLine(s, s.lines[k].blk, k);
  }

  // One dirty block whose store fails with -EIO: the flush reports success, and the disk is old.
  lemma FailedFlushLosesBlock(b: Block, d: Block)
    requires b != d
    ensures var s := State([Line(0, b, true, 0)], [d]);
      var (t, rc) := Flush(s, [-EIO], 0);
      && Inv(s) && rc == 0 && View(s, 0) == b
      && t.disk == [d] && t.lines == [Line(0, b, false, 0)] && !Inv(t)
  {
    var s := State([Line(0, b, true, 0)], [d]);
    FlushIs(s, [-EIO], 0);
    var t := Flush(s, [-EIO], 0).0;
    assert NotFrom(s, 1, 0);
    assert !Clean(t, t.lines[0]);
  }
}

// Whole runs of cache operations.
module CacheRuns {
  import opened Sequences
  import opened CacheSpec
  import opened CacheProofs

  datatype Op =
    | GetBlock(pos: nat, stored: int, fetched: int)
    | WriteBlock(blk: nat, data: Block)      // by a holder of the block
    | ReleaseBlock(blk: nat, dirty: bool)
    | FlushAll(results: seq<int>)

  // Holders touch only blocks they have pinned and release them honestly; the device returns 0..512.
  predicate Legal(s: State, op: Op) {
    match op
    case GetBlock(pos, stored, fetched) =>
      0 <= stored <= BLKSZ && 0 <= fetched && PossibleResult(s.disk, pos / BLKSZ, fetched)
    case WriteBlock(blk, data) => Pins(s, blk) > 0
    case ReleaseBlock(blk, dirty) => Pins(s, blk) > 0 && Honest(s, Find(s.lines, blk), dirty)
    case FlushAll(results) => LongResults(s, results) && forall k :: 0 <= k < |results| ==> 0 <= results[k]
  }

  function Step(s: State, op: Op): State
    requires Legal(s, op)
  {
    match op
    case GetBlock(pos, stored, fetched) => Get(s, pos, stored, fetched).0
    case WriteBlock(blk, data) => Write(s, Find(s.lines, blk), data)
    case ReleaseBlock(blk, dirty) => Release(s, Find(s.lines, blk), dirty)
    case FlushAll(results) => Flush(s, results, 0).0
  }

  // The plain disk that the cache stands for: only writes change it.
  function Plain(d: seq<Block>, op: Op): seq<Block> {
    if op.WriteBlock? && op.blk < |d| then d[op.blk := op.data] else d
  }

  ghost predicate Shows(s: State, d: seq<Block>) {
    |s.disk| == |d| && forall b: nat :: b < |d| ==> View(s, b) == d[b]
  }

  lemma StepShows(s: State, d: seq<Block>, op: Op)
    requires Inv(s) && Shows(s, d) && Legal(s, op)
    ensures Inv(Step(s, op)) && Shows(Step(s, op), Plain(d, op))
  {
    match op
    case GetBlock(pos, stored, fetched) => GetKeeps(s, pos, stored, fetched);
    case WriteBlock(blk, data) => WriteShows(s, Find(s.lines, blk), data);
    case ReleaseBlock(blk, dirty) => ReleaseKeeps(s, Find(s.lines, blk), dirty);
    case FlushAll(results) => FlushKeeps(s, results);
  }

  ghost predicate LegalRun(s: State, ops: seq<Op>)
    decreases |ops|
  {
    |ops| > 0 ==> Legal(s, ops[0]) && LegalRun(Step(s, ops[0]), ops[1..])
  }

  ghost function Run(s: State, ops: seq<Op>): State
    requires LegalRun(s, ops)
    decreases |ops|
  {
    if |ops| == 0 then s else Run(Step(s, ops[0]), ops[1..])
  }

  function PlainRun(d: seq<Block>, ops: seq<Op>): seq<Block>
    decreases |ops|
  {
    if |ops| == 0 then d else PlainRun(Plain(d, ops[0]), ops[1..])
  }

  // After any run of operations the cache shows what the plain disk would hold.
  lemma {:induction false} CacheRefinesDisk(s: State, d: seq<Block>, ops: seq<Op>)
    requires Inv(s) && Shows(s, d) && LegalRun(s, ops)
    ensures Inv(Run(s, ops)) && Shows(Run(s, ops), PlainRun(d, ops))
    decreases |ops|
  {
    if |ops| > 0 {
      StepShows(s, d, ops[0]);
      CacheRefinesDisk(Step(s, ops[0]), Plain(d, ops[0]), ops[1..]);
    }
  }

  // create_cache: an empty list in front of the disk.
  lemma EmptyCacheShows(d: seq<Block>)
    ensures Inv(State([], d)) && Shows(State([], d), d)
  {
  }

  // The block an operation obtains.
  function NowObtained(s: State, op: Op): seq<nat>
    requires Legal(s, op)
  {
    if op.GetBlock? && Get(s, op.pos, op.stored, op.fetched).1 == 0 then [op.pos / BLKSZ] else []
  }

  // The blocks obtained by a run, in order.
  ghost function Obtained(s: State, ops: seq<Op>): seq<nat>
    requires LegalRun(s, ops)
    decreases |ops|
  {
    if |ops| == 0 then []
    else
      NowObtained(s, ops[0]) + Obtained(Step(s, ops[0]), ops[1..])
  }

  // When block b was last obtained; -1 for never.
  function LastUse(h: seq<nat>, b: nat): (t: int)
    ensures -1 <= t < |h|
    ensures t >= 0 ==> h[t] == b
    ensures forall k :: t < k < |h| ==> h[k] != b
  {
    if |h| == 0 then -1 else if h[|h| - 1] == b then |h| - 1 else LastUse(h[..|h| - 1], b)
  }

  // The list is in order of last use.
  ghost predicate ByUse(lines: seq<Line>, h: seq<nat>) {
    && (forall i :: 0 <= i < |lines| ==> LastUse(h, lines[i].blk) >= 0)
    && (forall i, j :: 0 <= i < j < |lines| ==> LastUse(h, lines[i].blk) > LastUse(h, lines[j].blk))
  }

  lemma LastUseSnoc(h: seq<nat>, b: nat, c: nat)
    ensures LastUse(h + [b], c) == if c == b then |h| else LastUse(h, c)
  {
    assert (h + [b])[..|h|] == h;
  }

  lemma GetByUse(s: State, pos: nat, stored: int, fetched: int, h: seq<nat>)
    requires Inv(s) && ByUse(s.lines, h) && 0 <= stored <= BLKSZ
    requires 0 <= fetched && PossibleResult(s.disk, pos / BLKSZ, fetched)
    ensures var (t, rc) := Get(s, pos, stored, fetched);
      ByUse(t.lines, h + if rc == 0 then [pos / BLKSZ] else [])
  {
    var blk := pos / BLKSZ;
    if pos % BLKSZ != 0 {
      AppendNothing(h);
    } else if Find(s.lines, blk) < |s.lines| {
      HitByUse(s, Find(s.lines, blk), h);
    } else {
      MissByUse(s, blk, stored, fetched, h);
    }
  }

  lemma HitByUse(s: State, i: nat, h: seq<nat>)
    requires i < |s.lines| && ByUse(s.lines, h) && Distinct(s.lines)
    ensures ByUse(Hit(s, i).lines, h + [s.lines[i].blk])
  {
    FrontByUse(s.lines[i], s.lines, i, h, s.lines[i].blk);
  }

  lemma MissByUse(s: State, blk: nat, stored: int, fetched: int, h: seq<nat>)
    requires ByUse(s.lines, h) && stored <= BLKSZ && fetched <= BLKSZ && Find(s.lines, blk) == |s.lines|
    ensures var (t, rc) := Miss(s, blk, stored, fetched);
      ByUse(t.lines, h + if rc == 0 then [blk] else [])
  {
    AppendNothing(h);
    RoomByUse(s, stored, h);
    var (room, rc) := MakeRoom(s, stored);
    if rc == 0 && !ShortTransfer(fetched) {
      ConsByUse(Line(blk, Fetched(room.disk, blk, fetched), false, 1), room.lines, h, blk);
    }
  }

  lemma RoomByUse(s: State, stored: int, h: seq<nat>)
    requires ByUse(s.lines, h) && stored <= BLKSZ
    ensures ByUse(MakeRoom(s, stored).0.lines, h)
    ensures forall k :: 0 <= k < |MakeRoom(s, stored).0.lines| ==> MakeRoom(s, stored).0.lines[k] in s.lines
  {
    var v := Victim(s.lines);
    if |s.lines| == MAX_NODES && v >= 0 { DropByUse(s.lines, v, h); }
  }

  lemma DropByUse(lines: seq<Line>, v: nat, h: seq<nat>)
    requires v < |lines| && ByUse(lines, h)
    ensures ByUse(Without(lines, v), h)
    ensures forall k :: 0 <= k < |Without(lines, v)| ==> Without(lines, v)[k] in lines
  {
    WithoutAt(lines, v);
  }

  lemma ConsByUse(l: Line, rest: seq<Line>, h: seq<nat>, b: nat)
    requires ByUse(rest, h) && l.blk == b && forall k :: 0 <= k < |rest| ==> rest[k].blk != b
    ensures ByUse([l] + rest, h + [b])
  {
    forall k | 0 <= k < |rest| ensures LastUse(h + [b], rest[k].blk) == LastUse(h, rest[k].blk) {
      LastUseSnoc(h, b, rest[k].blk);
    }
    LastUseSnoc(h, b, b);
  }

  lemma FrontByUse(l: Line, lines: seq<Line>, i: nat, h: seq<nat>, b: nat)
    requires i < |lines| && ByUse(lines, h) && Distinct(lines) && lines[i].blk == l.blk == b
    ensures ByUse([l.(refcnt := l.refcnt + 1)] + Without(lines, i), h + [b])
  {
    WithoutAt(lines, i);
    ConsByUse(l.(refcnt := l.refcnt + 1), Without(lines, i), h, b);
  }

  lemma SameOrderByUse(lines: seq<Line>, lines': seq<Line>, h: seq<nat>)
    requires ByUse(lines, h) && |lines'| == |lines|
    requires forall k :: 0 <= k < |lines| ==> lines'[k].blk == lines[k].blk
    ensures ByUse(lines', h)
  {
  }

  // In every run the list is in order of last use, most recent first ...
  lemma {:induction false} ListIsByUse(s: State, d: seq<Block>, ops: seq<Op>, h: seq<nat>)
    requires Inv(s) && Shows(s, d) && LegalRun(s, ops) && ByUse(s.lines, h)
    ensures ByUse(Run(s, ops).lines, h + Obtained(s, ops))
    decreases |ops|
  {
    if |ops| == 0 {
      AppendNothing(h);
    } else {
      var op := ops[0];
      var got := NowObtained(s, op);
      StepShows(s, d, op);
      StepByUse(s, op, h);
      ListIsByUse(Step(s, op), Plain(d, op), ops[1..], h + got);
      AppendAssociates(h, got, Obtained(Step(s, op), ops[1..]));
    }
  }

  lemma StepByUse(s: State, op: Op, h: seq<nat>)
    requires Inv(s) && Legal(s, op) && ByUse(s.lines, h)
    ensures ByUse(Step(s, op).lines, h + NowObtained(s, op))
  {
    AppendNothing(h);
    match op
    case GetBlock(pos, stored, fetched) => GetByUse(s, pos, stored, fetched, h);
    case WriteBlock(blk, data) => SameOrderByUse(s.lines, Step(s, op).lines, h);
    case ReleaseBlock(blk, dirty) => SameOrderByUse(s.lines, Step(s, op).lines, h);
    case FlushAll(results) =>
      FlushKeeps(s, results);
      SameOrderByUse(s.lines, Step(s, op).lines, h);
  }

  // ... so the block given up is the unpinned one whose last use is longest ago.
  lemma VictimIsLeastRecent(d: seq<Block>, ops: seq<Op>, k: nat)
    requires LegalRun(State([], d), ops)
    requires var lines := Run(State([], d), ops).lines;
      k < |lines| && lines[k].refcnt == 0 && Victim(lines) != k
    ensures var lines := Run(State([], d), ops).lines;
      var h := Obtained(State([], d), ops);
      Victim(lines) >= 0 && LastUse(h, lines[Victim(lines)].blk) < LastUse(h, lines[k].blk)
  {
    var s := State([], d);
    EmptyCacheShows(d);
    ListIsByUse(s, d, ops, []);
    assert [] + Obtained(s, ops) == Obtained(s, ops);
  }
}
