// Byte-wise access to a block device in sys/device.c: storage_uio_read and storage_uio_write, with the bounce
// buffer for the blocks at either end.

module Rounding {
  import opened Arith

  // ROUND_DOWN, and being a multiple, without division.
  function Down(x: nat, b: nat): nat
    requires b > 0
  {
    if x < b then 0 else Down(x - b, b) + b
  }

  predicate Aligned(x: nat, b: nat)
    requires b > 0
  {
    x == 0 || (x >= b && Aligned(x - b, b))
  }

  lemma {:induction false} DownIs(x: nat, b: nat)
    requires b > 0
    ensures Down(x, b) <= x < Down(x, b) + b && Aligned(Down(x, b), b)
    ensures Aligned(x, b) <==> Down(x, b) == x
  {
    if x >= b { DownIs(x - b, b); }
  }

  // What the C macro and the C remainder compute.
  lemma {:induction false} DownDivides(x: nat, b: nat)
    requires b > 0
    ensures Down(x, b) == x / b * b
  {
    if x < b {
      assert x / b == 0;
    } else {
      DownDivides(x - b, b);
      var q := Less(x, b);
      MulSucc(q, b);
    }
  }

  lemma Less(x: nat, b: nat) returns (q: nat)
    requires 0 < b <= x
    ensures q == (x - b) / b && x / b == q + 1
  {
    q := (x - b) / b;
    var r := (x - b) % b;
    MulSucc(q, b);
    assert (x / b - (q + 1)) * b == r - x % b;
    assert (q + 1 - x / b) * b == x % b - r;
    if x / b > q + 1 { MulAtLeast(x / b - (q + 1), b); }
    if x / b < q + 1 { MulAtLeast(q + 1 - x / b, b); }
  }

  lemma MulSucc(q: nat, b: nat)
    ensures (q + 1) * b == q * b + b
  {
  }

  lemma {:induction false} AlignedSum(x: nat, y: nat, b: nat)
    requires b > 0 && Aligned(x, b) && Aligned(y, b)
    ensures Aligned(x + y, b)
  {
    if y > 0 {
      AlignedSum(x, y - b, b);
      assert x + y - b == x + (y - b);
    }
  }

  // The block of a byte on the device is on the device.
  lemma {:induction false} BlockFits(x: nat, cap: nat, b: nat)
    requires b > 0 && x < cap && Aligned(cap, b)
    ensures Down(x, b) + b <= cap
  {
    if x >= b { BlockFits(x - b, cap - b, b); }
  }

  method RoundDown(x: nat, b: nat) returns (r: nat)
    requires b > 0
    ensures r == Down(x, b)
  {
    DownDivides(x, b);
    r := x / b * b;
  }

  // the first block boundary at or behind x
  function Up(x: nat, b: nat): (y: nat)
    requires b > 0
    ensures x <= y < x + b && Aligned(y, b)
  {
    DownIs(x, b);
    AlignedSum(Down(x, b), b, b);
    if Aligned(x, b) then x else Down(x, b) + b
  }

  // The rest of a transfer within a block ends at the boundary behind it.
  lemma UpInBlock(base: nat, x: nat, b: nat)
    requires b > 0 && Aligned(base, b) && base < x < base + b
    ensures Up(x, b) == base + b
  {
    DownIs(x, b);
    SameBase(base, Down(x, b), x, b);
    if Aligned(x, b) { SameBase(base, x, x, b); }
  }

  lemma {:induction false} SameBase(p: nat, q: nat, x: nat, b: nat)
    requires b > 0 && Aligned(p, b) && Aligned(q, b) && p <= x < p + b && q <= x < q + b
    ensures p == q
    decreases x
  {
    if p >= b && q >= b { SameBase(p - b, q - b, x - b, b); }
  }
}

module StorageUio {
  import opened Arith
  import opened Errors
  import opened Sequences
  import opened Rounding

  // From position at on, b holds n bytes of the device from pos on.
  ghost predicate Holds(b: seq<bv8>, at: nat, dev: seq<bv8>, pos: nat, n: nat) {
    && at + n <= |b| && pos + n <= |dev|
    && (forall i {:trigger b[i]} :: at <= i < at + n ==> b[i] == dev[pos + i - at])
  }

  // Nothing but positions from lo to hi has changed.
  ghost predicate Outside(d: seq<bv8>, d1: seq<bv8>, lo: nat, hi: nat) {
    |d1| == |d| && forall i {:trigger d1[i]} :: 0 <= i < |d| && !(lo <= i < hi) ==> d1[i] == d[i]
  }

  // The first rc bytes of buf (none if rc is an error) are in place from pos on; what else has changed lies
  // between lo and hi; and if buf was written as a whole, nothing else has.
  ghost predicate Written(d: seq<bv8>, d1: seq<bv8>, pos: nat, buf: seq<bv8>, rc: int, lo: nat, hi: nat) {
    && Holds(d1, pos, buf, 0, Max(rc, 0)) && Outside(d, d1, lo, hi)
    && (rc == |buf| ==> Overwritten(d, d1, pos, buf))
  }

  // What Read promises, as slices.
  lemma FetchedExactly(b0: seq<bv8>, b1: seq<bv8>, at: nat, dev: seq<bv8>, pos: nat, n: nat)
    requires Holds(b1, at, dev, pos, n) && Outside(b0, b1, at, at + n)
    ensures b1 == b0[..at] + dev[pos..pos + n] + b0[at + n..]
  {
  }

  // What a failing call leaves of the bytes it was to move is up to the device.
  datatype Fault = Fine | Broken(left: seq<bv8>)

  // A block device. A call moves all of its whole blocks, or fails and leaves anything in their place.
  class Storage {
    const blksz: nat
    var bytes: seq<bv8>
    var faults: seq<Fault>      // what becomes of the coming calls

    ghost predicate Valid()
      reads this`bytes
    {
      blksz > 0 && Aligned(|bytes|, blksz)
    }

    constructor (b: nat, contents: seq<bv8>)
      requires b > 0 && Aligned(|contents|, b)
      ensures Valid() && blksz == b && bytes == contents && faults == []
    {
      blksz, bytes, faults := b, contents, [];
    }

    method NextFault() returns (fault: Fault)
      modifies this`faults
      ensures old(faults) == [] ==> fault == Fine && faults == []
    {
      fault := Fine;
      if |faults| > 0 {
        fault := faults[0];
        faults := faults[1..];
      }
    }

    // storage_fetch into buf from at on
    method Fetch(pos: nat, buf: array<bv8>, at: nat, len: nat) returns (rc: int)
      requires Valid() && at + len <= buf.Length && pos + len <= |bytes| && Aligned(len, blksz)
      modifies this`faults, buf
      ensures Outside(old(buf[..]), buf[..], at, at + len)
      ensures rc >= 0 ==> rc == len && Holds(buf[..], at, bytes, pos, len)
      ensures old(faults) == [] ==> faults == [] && (rc < 0 <==> !Aligned(pos, blksz))
    {
      DownIs(pos, blksz);
      DownIs(len, blksz);
      var p := RoundDown(pos, blksz);
      if (len != 0 && len < blksz) || p != pos { return -EINVAL; }
      var fault := NextFault();
      if fault.Broken? {
        forall i | 0 <= i < len && i < |fault.left| { buf[at + i] := fault.left[i]; }
        return -EIO;
      }
      forall i | 0 <= i < len { buf[at + i] := bytes[pos + i]; }
      rc := len;
    }

    // storage_store
    method Store(pos: nat, data: seq<bv8>) returns (rc: int)
      requires Valid() && pos + |data| <= |bytes| && Aligned(|data|, blksz)
      modifies this`bytes, this`faults
      ensures Valid() && Outside(old(bytes), bytes, pos, pos + |data|)
      ensures rc >= 0 ==> rc == |data| && Overwritten(old(bytes), bytes, pos, data)
      ensures old(faults) == [] ==> faults == [] && (rc < 0 <==> !Aligned(pos, blksz))
    {
      DownIs(pos, blksz);
      DownIs(|data|, blksz);
      var p := RoundDown(pos, blksz);
      if (|data| != 0 && |data| < blksz) || p != pos { return -EINVAL; }
      var fault := NextFault();
      if fault.Broken? {
        var n := Min(|fault.left|, |data|);
        bytes := bytes[..pos] + fault.left[..n] + bytes[pos + n..];
        return -EIO;
      }
      bytes := bytes[..pos] + data + bytes[pos + |data|..];
      rc := |data|;
    }
  }

  class StorageUio {
    const sto: Storage
    const buffer: array<bv8>
    var pos: nat

    ghost predicate Valid()
      reads this`pos, sto`bytes
    {
      sto.Valid() && buffer.Length == sto.blksz && pos <= |sto.bytes|
    }

    // storage_open_uio
    constructor (s: Storage)
      requires s.Valid()
      ensures Valid() && sto == s && pos == 0 && fresh(buffer)
    {
      sto := s;
      buffer := new bv8[s.blksz];
      pos := 0;
    }

    // How much of len bytes lies in the block that pos is in.
    function Part(p: nat, len: nat): (n: nat)
      requires sto.blksz > 0
      ensures n <= len && (len > 0 ==> n > 0)
    {
      DownIs(p, sto.blksz);
      Min(sto.blksz - (p - Down(p, sto.blksz)), len)
    }

    // unaligned_fetch
    method UnalignedFetch(buf: array<bv8>, at: nat, len: nat) returns (rc: int)
      requires Valid() && buf != buffer && at + len <= buf.Length && pos < |sto.bytes| && pos + len <= |sto.bytes|
      modifies sto`faults, buffer, buf
      ensures rc < 0 ==> buf[..] == old(buf[..])
      ensures rc >= 0 ==>
        rc == Part(pos, len) && Holds(buf[..], at, sto.bytes, pos, rc) && Outside(old(buf[..]), buf[..], at, at + rc)
      ensures old(sto.faults) == [] ==> sto.faults == [] && rc >= 0
    {
      var base := RoundDown(pos, sto.blksz);
      DownIs(pos, sto.blksz);
      DownIs(base, sto.blksz);
      BlockFits(pos, |sto.bytes|, sto.blksz);
      rc := sto.Fetch(base, buffer, 0, sto.blksz);
      if rc < 0 { return; }
      rc := Min(sto.blksz - (pos - base), len);
      assert forall i {:trigger buffer[i]} :: 0 <= i < sto.blksz ==> buffer[i] == buffer[..][i];
      forall i | 0 <= i < rc { buf[at + i] := buffer[pos - base + i]; }
    }

    // unaligned_store: read, modify, write. A failure may spoil the whole block.
    method UnalignedStore(buf: seq<bv8>) returns (rc: int)
      requires Valid() && pos < |sto.bytes| && pos + |buf| <= |sto.bytes|
      modifies sto`bytes, sto`faults, buffer
      ensures Valid() && Outside(old(sto.bytes), sto.bytes, Down(pos, sto.blksz), Down(pos, sto.blksz) + sto.blksz)
      ensures rc >= 0 ==> rc == Part(pos, |buf|) && Overwritten(old(sto.bytes), sto.bytes, pos, buf[..rc])
      ensures old(sto.faults) == [] ==> sto.faults == [] && rc >= 0
    {
      var base := RoundDown(pos, sto.blksz);
      DownIs(pos, sto.blksz);
      DownIs(base, sto.blksz);
      BlockFits(pos, |sto.bytes|, sto.blksz);
      rc := sto.Fetch(base, buffer, 0, sto.blksz);
      if rc < 0 { return; }
      ghost var c := buffer[..];
      var n := Min(sto.blksz - (pos - base), |buf|);
      forall i | 0 <= i < n { buffer[pos - base + i] := buf[i]; }
      ghost var c1 := buffer[..];
      assert Overwritten(c, c1, pos - base, buf[..n]);
      rc := sto.Store(base, buffer[..]);
      if rc < 0 { return; }
      BlockModified(old(sto.bytes), sto.bytes, base, c, c1, pos, buf[..n]);
      rc := n;
    }

    // storage_uio_read. A failure after the first bytes cuts the transfer short; without one it is complete.
    method Read(buf: array<bv8>, bufsz: nat) returns (rc: int)
      requires Valid() && buf != buffer && bufsz <= buf.Length && pos + bufsz <= |sto.bytes|
      modifies this`pos, sto`faults, buffer, buf
      ensures Valid() && rc <= bufsz && pos == old(pos) + Max(rc, 0)
      ensures Holds(buf[..], 0, sto.bytes, old(pos), Max(rc, 0)) && Outside(old(buf[..]), buf[..], 0, bufsz)
      ensures old(sto.faults) == [] ==> rc == bufsz
    {
      var head := ReadHead(buf, bufsz);
      if head < 0 || head == bufsz { return head; }
      ghost var mid := buf[..];
      rc := ReadRest(buf, head, bufsz - head);
      HeldTwice(mid, buf[..], 0, sto.bytes, old(pos), head, Max(rc, 0), bufsz);
      if rc < 0 { return if head > 0 then head else rc; }
      rc := head + rc;
    }

    // a first part, up to the end of the block that pos is inside of
    method ReadHead(buf: array<bv8>, bufsz: nat) returns (head: int)
      requires Valid() && buf != buffer && bufsz <= buf.Length && pos + bufsz <= |sto.bytes|
      modifies this`pos, sto`faults, buffer, buf
      ensures Valid() && head <= bufsz && pos == old(pos) + Max(head, 0)
      ensures 0 <= head < bufsz ==> Aligned(pos, sto.blksz)
      ensures Holds(buf[..], 0, sto.bytes, old(pos), Max(head, 0))
      ensures Outside(old(buf[..]), buf[..], 0, Max(head, 0))
      ensures old(sto.faults) == [] ==> sto.faults == [] && head >= 0
    {
      var down := RoundDown(pos, sto.blksz);
      DownIs(pos, sto.blksz);
      head := 0;
      if pos != down {
        head := UnalignedFetch(buf, 0, bufsz);
        if head <= 0 { return; }
        pos := pos + head;
      }
      if head < bufsz { HeadAligns(old(pos), head, sto.blksz); }
    }

    // the whole blocks, and a last part
    method ReadRest(buf: array<bv8>, at: nat, len: nat) returns (rc: int)
      requires Valid() && buf != buffer && at + len <= buf.Length && pos + len <= |sto.bytes|
      requires len > 0 && Aligned(pos, sto.blksz)
      modifies this`pos, sto`faults, buffer, buf
      ensures Valid() && rc <= len && pos == old(pos) + Max(rc, 0)
      ensures Holds(buf[..], at, sto.bytes, old(pos), Max(rc, 0)) && Outside(old(buf[..]), buf[..], at, at + len)
      ensures old(sto.faults) == [] ==> rc == len
    {
      var n := RoundDown(len, sto.blksz);
      DownIs(len, sto.blksz);
      AlignedSum(pos, n, sto.blksz);
      rc := sto.Fetch(pos, buf, at, n);
      if rc < 0 { return; }
      pos := pos + rc;
      if rc < n || len == n { return; }
      ghost var mid := buf[..];
      var last := ReadLast(buf, at + n, len - n);
      HeldTwice(mid, buf[..], at, sto.bytes, old(pos), n, Max(last, 0), at + len);
      if last < 0 { return n; }
      rc := n + last;
    }

    // a last part within one block
    method ReadLast(buf: array<bv8>, at: nat, len: nat) returns (rc: int)
      requires Valid() && buf != buffer && at + len <= buf.Length && pos + len <= |sto.bytes|
      requires 0 < len < sto.blksz && Aligned(pos, sto.blksz)
      modifies this`pos, sto`faults, buffer, buf
      ensures Valid() && (rc < 0 || rc == len) && pos == old(pos) + Max(rc, 0)
      ensures Holds(buf[..], at, sto.bytes, old(pos), Max(rc, 0)) && Outside(old(buf[..]), buf[..], at, at + len)
      ensures old(sto.faults) == [] ==> rc >= 0
    {
      DownIs(pos, sto.blksz);
      rc := UnalignedFetch(buf, at, len);
      if rc >= 0 { pos := pos + rc; }
    }

    // storage_uio_write, likewise. A failure may spoil the blocks it was to write, but not the bytes reported as
    // written.
    method Write(buf: seq<bv8>) returns (rc: int)
      requires Valid() && pos + |buf| <= |sto.bytes|
      modifies this`pos, sto`bytes, sto`faults, buffer
      ensures Valid() && rc <= |buf| && pos == old(pos) + Max(rc, 0)
      ensures Written(old(sto.bytes), sto.bytes, old(pos), buf, rc,
                      Down(old(pos), sto.blksz), Up(old(pos) + |buf|, sto.blksz))
      ensures old(sto.faults) == [] ==> rc == |buf|
    {
      ghost var hi := Up(pos + |buf|, sto.blksz);
      DownIs(pos, sto.blksz);
      var head := WriteHead(buf, hi);
      if head < 0 || head == |buf| { return head; }
      ghost var mid := sto.bytes;
      rc := WriteRest(buf[head..]);
      WrittenTwice(old(sto.bytes), mid, sto.bytes, old(pos), buf, head, rc, Down(old(pos), sto.blksz), hi);
      if rc < 0 { return if head > 0 then head else rc; }
      rc := head + rc;
    }

    // a first part, up to the end of the block that pos is inside of
    method WriteHead(buf: seq<bv8>, ghost hi: nat) returns (head: int)
      requires Valid() && pos + |buf| <= |sto.bytes| && hi == Up(pos + |buf|, sto.blksz)
      modifies this`pos, sto`bytes, sto`faults, buffer
      ensures Valid() && head <= |buf| && pos == old(pos) + Max(head, 0)
      ensures 0 <= head < |buf| ==> Aligned(pos, sto.blksz)
      ensures Written(old(sto.bytes), sto.bytes, old(pos), buf, head, Down(old(pos), sto.blksz), hi)
      ensures head >= 0 ==> Overwritten(old(sto.bytes), sto.bytes, old(pos), buf[..head])
      ensures old(sto.faults) == [] ==> sto.faults == [] && head >= 0
    {
      var down := RoundDown(pos, sto.blksz);
      DownIs(pos, sto.blksz);
      head := 0;
      if pos != down {
        HeadEnds(pos, |buf|, sto.blksz);
        head := UnalignedStore(buf);
        PieceWritten(old(sto.bytes), sto.bytes, pos, buf, head, Down(pos, sto.blksz), hi);
        if head < 0 { return head; }
        pos := pos + head;
      }
      if head < |buf| { HeadAligns(old(pos), head, sto.blksz); }
    }

    // the whole blocks, and a last part
    method WriteRest(buf: seq<bv8>) returns (rc: int)
      requires Valid() && buf != [] && pos + |buf| <= |sto.bytes| && Aligned(pos, sto.blksz)
      modifies this`pos, sto`bytes, sto`faults, buffer
      ensures Valid() && rc <= |buf| && pos == old(pos) + Max(rc, 0)
      ensures Written(old(sto.bytes), sto.bytes, old(pos), buf, rc, old(pos), Up(old(pos) + |buf|, sto.blksz))
      ensures old(sto.faults) == [] ==> rc == |buf|
    {
      ghost var hi := Up(pos + |buf|, sto.blksz);
      DownIs(|buf|, sto.blksz);
      rc := WriteBlocks(buf, hi);
      if rc < 0 || rc == |buf| { return; }
      ghost var mid := sto.bytes;
      UpInBlock(pos, old(pos) + |buf|, sto.blksz);
      var last := WriteLast(buf[rc..]);
      WrittenTwice(old(sto.bytes), mid, sto.bytes, old(pos), buf, rc, last, old(pos), hi);
      rc := rc + Max(last, 0);
    }

    // the whole blocks
    method WriteBlocks(buf: seq<bv8>, ghost hi: nat) returns (rc: int)
      requires Valid() && pos + |buf| <= |sto.bytes| && Aligned(pos, sto.blksz) && pos + |buf| <= hi
      modifies this`pos, sto`bytes, sto`faults
      ensures Valid() && (rc < 0 || rc == Down(|buf|, sto.blksz)) && rc <= |buf| && pos == old(pos) + Max(rc, 0)
      ensures Aligned(pos, sto.blksz)
      ensures Written(old(sto.bytes), sto.bytes, old(pos), buf, rc, old(pos), hi)
      ensures rc >= 0 ==> Overwritten(old(sto.bytes), sto.bytes, old(pos), buf[..rc])
      ensures old(sto.faults) == [] ==> sto.faults == [] && rc >= 0
    {
      var n := RoundDown(|buf|, sto.blksz);
      DownIs(|buf|, sto.blksz);
      DownIs(n, sto.blksz);
      AlignedSum(pos, n, sto.blksz);
      rc := sto.Store(pos, buf[..n]);
      PieceWritten(old(sto.bytes), sto.bytes, pos, buf, rc, pos, hi);
      if rc >= 0 { pos := pos + rc; }
    }

    // a last part within one block
    method WriteLast(buf: seq<bv8>) returns (rc: int)
      requires Valid() && 0 < |buf| < sto.blksz && pos + |buf| <= |sto.bytes| && Aligned(pos, sto.blksz)
      modifies this`pos, sto`bytes, sto`faults, buffer
      ensures Valid() && (rc < 0 || rc == |buf|) && pos == old(pos) + Max(rc, 0)
      ensures Written(old(sto.bytes), sto.bytes, old(pos), buf, rc, old(pos), old(pos) + sto.blksz)
      ensures old(sto.faults) == [] ==> rc >= 0
    {
      DownIs(pos, sto.blksz);
      rc := UnalignedStore(buf);
      PieceWritten(old(sto.bytes), sto.bytes, pos, buf, rc, pos, pos + sto.blksz);
      if rc >= 0 { pos := pos + rc; }
    }
  }

  // A block c of the device d, modified and put back.
  lemma BlockModified(d: seq<bv8>, d1: seq<bv8>, base: nat, c: seq<bv8>, c1: seq<bv8>, pos: nat, data: seq<bv8>)
    requires base <= pos && Holds(c, 0, d, base, |c|) && Overwritten(c, c1, pos - base, data)
    requires Overwritten(d, d1, base, c1)
    ensures Overwritten(d, d1, pos, data)
  {
    forall i {:trigger d1[i]} | 0 <= i < |d| ensures d1[i] == if pos <= i < pos + |data| then data[i - pos] else d[i] {
      if base <= i < base + |c| {
        assert d1[i] == c1[i - base];
        assert c[i - base] == d[i];
      }
    }
  }

  // After the bytes of the block it started in, a transfer goes on at a block boundary.
  lemma HeadAligns(pos: nat, head: nat, b: nat)
    requires b > 0 && (head == 0 || head == b - (pos - Down(pos, b)))
    requires head == 0 ==> Down(pos, b) == pos
    ensures Aligned(pos + head, b)
  {
    DownIs(pos, b);
    if head > 0 { AlignedSum(Down(pos, b), b, b); }
  }

  // The block that pos is inside of ends no later than the boundary behind pos + n.
  lemma HeadEnds(pos: nat, n: nat, b: nat)
    requires b > 0 && Down(pos, b) < pos
    ensures Down(pos, b) + b <= Up(pos + n, b)
  {
    DownIs(pos, b);
    if Up(pos + n, b) < Down(pos, b) + b {
      SameBase(Down(pos, b), Up(pos + n, b), Up(pos + n, b), b);
    }
  }

  // A piece that is in place stays there when the next one comes behind it.
  lemma HeldTwice(b1: seq<bv8>, b2: seq<bv8>, at: nat, dev: seq<bv8>, pos: nat, m: nat, n: nat, hi: nat)
    requires Holds(b1, at, dev, pos, m) && Holds(b2, at + m, dev, pos + m, n) && Outside(b1, b2, at + m, hi)
    ensures Holds(b2, at, dev, pos, m + n)
  {
    forall i {:trigger b2[i]} | at <= i < at + m ensures b2[i] == b1[i] {}
  }

  lemma PieceWritten(d: seq<bv8>, d1: seq<bv8>, pos: nat, buf: seq<bv8>, rc: int, lo: nat, hi: nat)
    requires rc <= |buf| && Outside(d, d1, lo, hi) && pos <= |d|
    requires rc >= 0 ==> Overwritten(d, d1, pos, buf[..rc])
    ensures Written(d, d1, pos, buf, rc, lo, hi)
  {
    if rc >= 0 {
      forall i {:trigger d1[i]} | pos <= i < pos + rc ensures d1[i] == buf[i - pos] {
        assert buf[..rc][i - pos] == d1[i];
      }
      assert buf[..|buf|] == buf;
    }
  }

  // The first m bytes of buf are written, and then rc of those behind them, or none.
  lemma WrittenTwice(d: seq<bv8>, d1: seq<bv8>, d2: seq<bv8>, pos: nat, buf: seq<bv8>, m: nat, rc: int,
                     lo: nat, hi: nat)
    requires m < |buf| && rc <= |buf| - m && Overwritten(d, d1, pos, buf[..m]) && lo <= pos && pos + m <= hi
    requires Written(d1, d2, pos + m, buf[m..], rc, pos + m, hi)
    ensures Written(d, d2, pos, buf, m + Max(rc, 0), lo, hi)
    ensures m == 0 && rc < 0 ==> Written(d, d2, pos, buf, rc, lo, hi)
  {
    forall i {:trigger d2[i]} | pos <= i < pos + m + Max(rc, 0) ensures d2[i] == buf[i - pos] {
      if i < pos + m { assert d2[i] == d1[i]; } else { assert d2[i] == buf[m..][i - pos - m]; }
    }
    if m + rc == |buf| {
      forall i {:trigger d2[i]} | 0 <= i < |d| ensures d2[i] == if pos <= i < pos + |buf| then buf[i - pos] else d[i] {
        if i < pos + m { assert d2[i] == d1[i]; }
      }
    }
  }
}
