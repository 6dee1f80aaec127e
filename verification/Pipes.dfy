// The pipes of sys/uio.c: the ring buffer, and readers, writers and closers taking turns.

module RingBuffers {
  import opened Arith
  import opened Sequences

  const PAGE: nat := 4096
  const U64: nat := 0x1_0000_0000_0000_0000

  // The width of uint_fast16_t, which C leaves to the implementation, from 16 bits on.
  datatype Width = Bits16 | Bits32 | Bits64 {
    function Modulus(): (m: nat)
      ensures m > PAGE && m % PAGE == 0 && m <= U64
    {
      if Bits16? then 0x1_0000 else if Bits32? then 0x1_0000_0000 else U64
    }

    // the greatest position
    function Last(): nat {
      if Bits16? then Modulus() else Modulus() - 1
    }
  }

  type Contents = d: seq<bv8> | |d| == PAGE witness seq(PAGE, _ => 0)

  // struct ringbuf, with 64-bit positions
  datatype Ring = Ring(width: Width, hpos: nat, tpos: nat, data: Contents)

  // rbuf_putc and rbuf_getc step a position through a local of type uint_fast16_t. A 16-bit one is promoted to
  // int, so adding 1 does not wrap around; a wider one is unsigned and wraps.
  function Next(w: Width, pos: nat): nat {
    if w.Bits16? then pos % w.Modulus() + 1 else (pos % w.Modulus() + 1) % w.Modulus()
  }

  function Slot(w: Width, pos: nat): (k: nat)
    ensures k < PAGE
  {
    pos % w.Modulus() % PAGE
  }

  // rbuf_empty
  predicate IsEmpty(r: Ring) { r.hpos == r.tpos }

  // rbuf_full
  predicate IsFull(r: Ring) { (r.tpos - r.hpos) % U64 == PAGE }

  // rbuf_putc
  function Put(r: Ring, c: bv8): Ring {
    r.(data := r.data[Slot(r.width, r.tpos) := c], tpos := Next(r.width, r.tpos))
  }

  // rbuf_getc
  function First(r: Ring): bv8 { r.data[Slot(r.width, r.hpos)] }

  function Rest(r: Ring): Ring { r.(hpos := Next(r.width, r.hpos)) }

  // The copy loop of pipe_write, and how many characters it moves.
  function PutAll(r: Ring, buf: seq<bv8>): (res: (Ring, nat))
    ensures res.1 <= |buf| && res.0.width == r.width && res.0.hpos == r.hpos
    decreases |buf|
  {
    if IsFull(r) || |buf| == 0 then (r, 0)
    else
      var (r1, n) := PutAll(Put(r, buf[0]), buf[1..]);
      (r1, n + 1)
  }

  // The copy loop of pipe_read, and the characters it moves.
  function TakeAll(r: Ring, n: nat): (res: (Ring, seq<bv8>))
    ensures |res.1| <= n && res.0.width == r.width
    decreases n
  {
    if IsEmpty(r) || n == 0 then (r, [])
    else
      var (r1, s) := TakeAll(Rest(r), n - 1);
      (r1, [First(r)] + s)
  }

  // The ring buffer in memory.
  class RingBuf {
    const width: Width
    const data: array<bv8>
    var hpos: nat
    var tpos: nat

    function State(): Ring
      reads this, data
      requires data.Length == PAGE
    {
      Ring(width, hpos, tpos, data[..])
    }

    constructor (w: Width)
      ensures data.Length == PAGE && fresh(data) && State() == Ring(w, 0, 0, data[..])
    {
      width := w;
      data := new bv8[PAGE];
      hpos, tpos := 0, 0;
    }

    method Putc(c: bv8)
      requires data.Length == PAGE
      modifies this`tpos, data
      ensures State() == Put(old(State()), c)
    {
      var t := tpos % width.Modulus();
      data[t % PAGE] := c;
      tpos := if width.Bits16? then t + 1 else (t + 1) % width.Modulus();
    }

    method Getc() returns (c: bv8)
      requires data.Length == PAGE
      modifies this`hpos
      ensures c == First(old(State())) && State() == Rest(old(State()))
    {
      var h := hpos % width.Modulus();
      c := data[h % PAGE];
      hpos := if width.Bits16? then h + 1 else (h + 1) % width.Modulus();
    }

    // the copy loop of pipe_read
    method Take(buf: array<bv8>, bufsz: nat) returns (read: nat)
      requires data.Length == PAGE && bufsz <= buf.Length && buf != data
      modifies this`hpos, buf
      ensures read <= bufsz && State() == TakeAll(old(State()), bufsz).0
      ensures buf[..read] == TakeAll(old(State()), bufsz).1
      ensures buf[read..] == old(buf[..])[read..]
    {
      read := 0;
      ghost var all := TakeAll(State(), bufsz);
      while hpos != tpos && read < bufsz
        invariant read <= bufsz && TakingOn(State(), bufsz - read, all, read)
        invariant forall i {:trigger buf[i]} :: 0 <= i < buf.Length ==>
          buf[i] == if i < read then all.1[i] else old(buf[i])
        decreases bufsz - read
      {
        TakeStep(State(), bufsz - read, all, read);
        var c := Getc();
        buf[read] := c;
        read := read + 1;
      }
    }

    // the copy loop of pipe_write
    method Give(buf: seq<bv8>) returns (written: nat)
      requires data.Length == PAGE
      modifies this`tpos, data
      ensures State() == PutAll(old(State()), buf).0 && written == PutAll(old(State()), buf).1
    {
      written := 0;
      ghost var all := PutAll(State(), buf);
      assert buf[0..] == buf;
      while (tpos - hpos) % U64 != PAGE && written < |buf|
        invariant written <= |buf| && PuttingOn(State(), buf, all, written)
        decreases |buf| - written
      {
        PutStep(State(), buf, all, written);
        Putc(buf[written]);
        written := written + 1;
      }
    }
  }

  // After read characters the loop has still to do what is left of all.
  ghost predicate TakingOn(r: Ring, n: nat, all: (Ring, seq<bv8>), read: nat) {
    read <= |all.1| && TakeAll(r, n) == (all.0, all.1[read..])
  }

  lemma TakeStep(r: Ring, n: nat, all: (Ring, seq<bv8>), read: nat)
    requires TakingOn(r, n, all, read) && !IsEmpty(r) && n > 0
    ensures read < |all.1| && all.1[read] == First(r) && TakingOn(Rest(r), n - 1, all, read + 1)
  {
    assert all.1[read..] == [First(r)] + TakeAll(Rest(r), n - 1).1;
    assert all.1[read + 1..] == all.1[read..][1..];
  }

  ghost predicate PuttingOn(r: Ring, buf: seq<bv8>, all: (Ring, nat), written: nat)
    requires written <= |buf|
  {
    var (r1, n) := PutAll(r, buf[written..]); r1 == all.0 && written + n == all.1
  }

  lemma PutStep(r: Ring, buf: seq<bv8>, all: (Ring, nat), written: nat)
    requires written < |buf| && PuttingOn(r, buf, all, written) && !IsFull(r)
    ensures PuttingOn(Put(r, buf[written]), buf, all, written + 1)
  {
    assert buf[written..][1..] == buf[written + 1..];
  }

  // The position after n characters.
  function Pos(w: Width, n: nat): nat {
    if n == 0 then 0 else Next(w, Pos(w, n - 1))
  }

  // Positions count characters, but start over: at 0 after the last one, or at 1 where a local of 16 bits is
  // promoted.
  lemma {:induction false} PosIs(w: Width, n: nat)
    ensures Pos(w, n) ==
      if w.Bits16? then (if n == 0 then 0 else (n - 1) % w.Modulus() + 1) else n % w.Modulus()
  {
    var m := w.Modulus();
    if n == 1 {
      ModIs(0, m, 0, 0);
      ModIs(1, m, 0, 1);
    } else if n > 1 {
      PosIs(w, n - 1);
      NextMod(if w.Bits16? then n - 2 else n - 1, m);
      ModIs((n - 1) % m, m, 0, (n - 1) % m);
    }
  }

  lemma PosSmall(w: Width, n: nat)
    requires n <= w.Last()
    ensures Pos(w, n) == n
  {
    PosIs(w, n);
    if w.Bits16? && n > 0 { ModIs(n - 1, w.Modulus(), 0, n - 1); }
    if !w.Bits16? { ModIs(n, w.Modulus(), 0, n); }
  }

  lemma NextMod(n: nat, m: nat)
    requires m > 1
    ensures (n % m + 1) % m == (n + 1) % m
  {
    var q, r := n / m, n % m;
    assert n == m * q + r;
    if r + 1 < m {
      ModIs(n + 1, m, q, r + 1);
      ModIs(r + 1, m, 0, r + 1);
    } else {
      assert n + 1 == m * (q + 1);
      ModIs(n + 1, m, q + 1, 0);
      ModIs(r + 1, m, 1, 0);
    }
  }

  lemma AddMod(a: nat, b: nat, m: nat)
    requires m > b
    ensures (a + b) % m == if a % m + b < m then a % m + b else a % m + b - m
  {
    var q, r := a / m, a % m;
    assert a == m * q + r;
    if r + b < m { ModIs(a + b, m, q, r + b); } else {
      assert a + b == m * (q + 1) + (r + b - m);
      ModIs(a + b, m, q + 1, r + b - m);
    }
  }

  // The n-th character goes to slot n % PAGE in every lap.
  lemma PosSlot(w: Width, n: nat)
    ensures Slot(w, Pos(w, n)) == n % PAGE
  {
    var m := w.Modulus();
    PosIs(w, n);
    if w.Bits16? && n > 0 { NextMod(n - 1, m); }
    if !w.Bits16? { ModIs(n % m, m, 0, n % m); }
    ModMod(w, n);
  }

  lemma ModMod(w: Width, n: nat)
    ensures n % w.Modulus() % PAGE == n % PAGE
  {
    if w.Bits16? {
      Folded(n, n / 0x1_0000 * 16, n % 0x1_0000);
    } else if w.Bits32? {
      Folded(n, n / 0x1_0000_0000 * 0x10_0000, n % 0x1_0000_0000);
    } else {
      Folded(n, n / U64 * 0x10_0000_0000_0000, n % U64);
    }
  }

  lemma Folded(n: nat, q: nat, r: nat)
    requires n == PAGE * q + r
    ensures n % PAGE == r % PAGE
  {
    ModIs(n, PAGE, q + r / PAGE, r % PAGE);
  }

  // Within a lap positions differ as the counts do.
  lemma PosAhead(w: Width, h: nat, d: nat)
    requires d < w.Modulus()
    ensures Pos(w, h + d) == if Pos(w, h) + d <= w.Last() then Pos(w, h) + d else Pos(w, h) + d - w.Modulus()
  {
    PosIs(w, h);
    PosIs(w, h + d);
    if !w.Bits16? {
      AddMod(h, d, w.Modulus());
    } else if h > 0 {
      AddMod(h - 1, d, w.Modulus());
    } else {
      PosSmall(w, d);
    }
  }

  // After h characters were taken out the buffer holds queue, in the slots that follow.
  ghost predicate Holds(r: Ring, h: nat, queue: seq<bv8>) {
    && |queue| <= PAGE && r.hpos == Pos(r.width, h) && r.tpos == Pos(r.width, h + |queue|)
    && (forall i {:trigger queue[i]} :: 0 <= i < |queue| ==> queue[i] == r.data[(h + i) % PAGE])
  }

  lemma EmptyIs(r: Ring, h: nat, queue: seq<bv8>)
    requires Holds(r, h, queue)
    ensures IsEmpty(r) <==> queue == []
  {
    PosAhead(r.width, h, |queue|);
  }

  // A page ahead of hpos is still in the same lap.
  predicate SameLap(w: Width, hpos: nat) {
    w.Bits64? || hpos + PAGE <= w.Last()
  }

  // A full buffer is seen to be full exactly when its end is in the same lap as its beginning.
  lemma FullIs(r: Ring, h: nat, queue: seq<bv8>)
    requires Holds(r, h, queue)
    ensures IsFull(r) <==> |queue| == PAGE && SameLap(r.width, r.hpos)
  {
    PosAhead(r.width, h, |queue|);
    var d, m := r.tpos - r.hpos, r.width.Modulus();
    if d >= 0 {
      ModIs(d, U64, 0, d);
    } else {
      assert d == |queue| - m;
      assert d % U64 == d + U64;
    }
  }

  lemma PutHolds(r: Ring, h: nat, queue: seq<bv8>, c: bv8)
    requires Holds(r, h, queue) && |queue| < PAGE
    ensures Holds(Put(r, c), h, queue + [c])
  {
    PosSlot(r.width, h + |queue|);
    var longer, r1 := queue + [c], Put(r, c);
    forall i {:trigger longer[i]} | 0 <= i < |longer| ensures longer[i] == r1.data[(h + i) % PAGE] {
      if i < |queue| { SlotsDiffer(h + i, h + |queue|); }
    }
  }

  lemma SlotsDiffer(i: nat, j: nat)
    requires i < j < i + PAGE
    ensures i % PAGE != j % PAGE
  {
  }

  lemma RestHolds(r: Ring, h: nat, queue: seq<bv8>)
    requires Holds(r, h, queue) && queue != []
    ensures First(r) == queue[0] && Holds(Rest(r), h + 1, queue[1..])
  {
    PosSlot(r.width, h);
    var rest := queue[1..];
    forall i {:trigger rest[i]} | 0 <= i < |rest| ensures rest[i] == r.data[(h + 1 + i) % PAGE] {
      assert rest[i] == queue[i + 1];
    }
  }

  // A read moves as many of the oldest characters as there are and fit.
  lemma {:induction false} TakeAllHolds(r: Ring, h: nat, queue: seq<bv8>, n: nat)
    requires Holds(r, h, queue)
    ensures var k := Min(|queue|, n);
      TakeAll(r, n).1 == queue[..k] && Holds(TakeAll(r, n).0, h + k, queue[k..])
    decreases n
  {
    EmptyIs(r, h, queue);
    if queue != [] && n > 0 {
      RestHolds(r, h, queue);
      TakeAllHolds(Rest(r), h + 1, queue[1..], n - 1);
      TakeFront(queue, Min(|queue|, n));
    } else {
      assert queue[0..] == queue;
    }
  }

  // A write of buf on top of queue goes beyond the room there is.
  predicate Overruns(r: Ring, unread: nat, buf: seq<bv8>) {
    PAGE - unread < |buf| && !SameLap(r.width, r.hpos)
  }

  // A write appends as many characters as there is room for, unless it overruns.
  lemma {:induction false} PutAllHolds(r: Ring, h: nat, queue: seq<bv8>, buf: seq<bv8>)
    requires Holds(r, h, queue) && !Overruns(r, |queue|, buf)
    ensures var k := Min(PAGE - |queue|, |buf|);
      PutAll(r, buf).1 == k && Holds(PutAll(r, buf).0, h, queue + buf[..k])
    decreases |buf|
  {
    FullIs(r, h, queue);
    if |queue| < PAGE && |buf| > 0 {
      PutHolds(r, h, queue, buf[0]);
      PutAllHolds(Put(r, buf[0]), h, queue + [buf[0]], buf[1..]);
      AppendFront(queue, buf, Min(PAGE - |queue|, |buf|));
    } else {
      AppendNothing(queue);
      assert buf[..0] == [];
    }
  }

  // A write that overruns puts in more characters than there is room for.
  lemma {:induction false} PutAllOverruns(r: Ring, h: nat, queue: seq<bv8>, buf: seq<bv8>)
    requires Holds(r, h, queue) && Overruns(r, |queue|, buf)
    ensures PutAll(r, buf).1 > PAGE - |queue|
    decreases |buf|
  {
    FullIs(r, h, queue);
    if |queue| < PAGE {
      PutHolds(r, h, queue, buf[0]);
      PutAllOverruns(Put(r, buf[0]), h, queue + [buf[0]], buf[1..]);
    }
  }

  // A write that goes one beyond the room overwrites the oldest character with its last.
  lemma {:induction false} OneTooMany(r: Ring, h: nat, queue: seq<bv8>, buf: seq<bv8>)
    requires Holds(r, h, queue) && |queue| + |buf| == PAGE + 1 && !SameLap(r.width, r.hpos)
    ensures PutAll(r, buf).1 == |buf| && First(PutAll(r, buf).0) == buf[|buf| - 1] && !IsEmpty(PutAll(r, buf).0)
    decreases |buf|
  {
    FullIs(r, h, queue);
    if |buf| == 1 {
      LastTooMany(r, h, queue, buf[0]);
      assert buf[1..] == [];
    } else {
      PutHolds(r, h, queue, buf[0]);
      OneTooMany(Put(r, buf[0]), h, queue + [buf[0]], buf[1..]);
    }
  }

  lemma LastTooMany(r: Ring, h: nat, queue: seq<bv8>, c: bv8)
    requires Holds(r, h, queue) && |queue| == PAGE
    ensures First(Put(r, c)) == c && !IsEmpty(Put(r, c))
  {
    SameSlotAPageOn(r.width, h);
    NotEqualAPageOn(r.width, h);
  }

  lemma SameSlotAPageOn(w: Width, h: nat)
    ensures Slot(w, Pos(w, h + PAGE)) == Slot(w, Pos(w, h))
  {
    PosSlot(w, h);
    PosSlot(w, h + PAGE);
    Folded(h + PAGE, 1, h);
  }

  lemma NotEqualAPageOn(w: Width, h: nat)
    ensures Next(w, Pos(w, h + PAGE)) != Pos(w, h)
  {
    PosAhead(w, h, PAGE + 1);
  }
}

module Pipes {
  import opened Arith
  import opened Errors
  import opened RingBuffers

  // A pipe between two calls: the ring buffer, references to each end, the threads inside pipe_read and
  // pipe_write (with the size they ask for, or the bytes they bring), those of them that are asleep, how
  // often the buffer was freed; and, as history, all bytes ever put in and taken out.
  datatype Pipe = Pipe(
    ring: Ring,
    readRefs: nat, writeRefs: nat,
    readers: map<nat, nat>, writers: map<nat, seq<bv8>>,
    asleepReading: set<nat>, asleepWriting: set<nat>,
    frees: nat,
    sent: seq<bv8>, got: seq<bv8>)

  // create_pipe
  function Start(w: Width, data: Contents): Pipe {
    Pipe(Ring(w, 0, 0, data), 1, 1, map[], map[], {}, {}, 0, [], [])
  }

  // The lock is never held across a suspension, so each turn of a loop is one step.
  datatype Step =
    | BeginRead(t: nat, bufsz: nat) | ReadTurn(t: nat)
    | BeginWrite(t: nat, buf: seq<bv8>) | WriteTurn(t: nat)
    | AddRefRead | AddRefWrite | CloseRead | CloseWrite

  // Calls need a reference; the last reference to an end goes only when no call is in progress on it.
  predicate Enabled(p: Pipe, step: Step) {
    match step
    case BeginRead(t, n) => p.readRefs > 0 && t !in p.readers && n > 0
    case ReadTurn(t) => t in p.readers && t !in p.asleepReading
    case BeginWrite(t, buf) => p.writeRefs > 0 && t !in p.writers && buf != []
    case WriteTurn(t) => t in p.writers && t !in p.asleepWriting
    case AddRefRead => p.readRefs > 0
    case AddRefWrite => p.writeRefs > 0
    case CloseRead => p.readRefs > 1 || (p.readRefs == 1 && p.readers == map[])
    case CloseWrite => p.writeRefs > 1 || (p.writeRefs == 1 && p.writers == map[])
  }

  // one turn of pipe_read
  function DoRead(p: Pipe, t: nat): Pipe
    requires Enabled(p, ReadTurn(t))
  {
    if IsEmpty(p.ring) then
      if p.writeRefs == 0 then p.(readers := p.readers - {t})
      else p.(asleepReading := p.asleepReading + {t})
    else
      var (ring, bytes) := TakeAll(p.ring, p.readers[t]);
      p.(ring := ring, got := p.got + bytes, readers := p.readers - {t}, asleepWriting := {})
  }

  // one turn of pipe_write
  function DoWrite(p: Pipe, t: nat): Pipe
    requires Enabled(p, WriteTurn(t))
  {
    if IsFull(p.ring) then
      if p.readRefs == 0 then p.(writers := p.writers - {t})
      else p.(asleepWriting := p.asleepWriting + {t})
    else if p.readRefs == 0 then p.(writers := p.writers - {t})
    else
      var (ring, n) := PutAll(p.ring, p.writers[t]);
      p.(ring := ring, sent := p.sent + p.writers[t][..n], writers := p.writers - {t}, asleepReading := {})
  }

  // pipe_close: everybody is woken; the last to close frees the buffer.
  function Closed(p: Pipe): Pipe {
    p.(asleepReading := {}, asleepWriting := {},
       frees := if p.readRefs == 0 && p.writeRefs == 0 then p.frees + 1 else p.frees)
  }

  function Apply(p: Pipe, step: Step): Pipe
    requires Enabled(p, step)
  {
    match step
    case BeginRead(t, n) => p.(readers := p.readers[t := n])
    case ReadTurn(t) => DoRead(p, t)
    case BeginWrite(t, buf) => p.(writers := p.writers[t := buf])
    case WriteTurn(t) => DoWrite(p, t)
    case AddRefRead => p.(readRefs := p.readRefs + 1)
    case AddRefWrite => p.(writeRefs := p.writeRefs + 1)
    case CloseRead =>
      var p1 := p.(readRefs := p.readRefs - 1);
      if p1.readRefs == 0 then Closed(p1) else p1
    case CloseWrite =>
      var p1 := p.(writeRefs := p.writeRefs - 1);
      if p1.writeRefs == 0 then Closed(p1) else p1
  }

  // What was read is what was written first, and the buffer still holds all the rest.
  ghost predicate Intact(p: Pipe) {
    p.got <= p.sent && Holds(p.ring, |p.got|, p.sent[|p.got|..])
  }

  ghost predicate Inv(p: Pipe) {
    && Intact(p)
    && p.asleepReading <= p.readers.Keys && p.asleepWriting <= p.writers.Keys
    && (forall t :: t in p.readers ==> p.readers[t] > 0) && (forall t :: t in p.writers ==> p.writers[t] != [])
    && (p.readers != map[] ==> p.readRefs > 0) && (p.writers != map[] ==> p.writeRefs > 0)
    && (p.asleepReading != {} ==> |p.sent| == |p.got| && p.writeRefs > 0)
    && (p.asleepWriting != {} ==> |p.sent| == |p.got| + PAGE && p.readRefs > 0)
    && p.frees == (if p.readRefs == 0 && p.writeRefs == 0 then 1 else 0)
  }

  // The step is a turn of a writer that brings more than there is room for, while the page ahead of hpos
  // reaches into the next lap of uint_fast16_t: it does not see the buffer getting full.
  predicate Loses(p: Pipe, step: Step) {
    && step.WriteTurn? && step.t in p.writers && p.readRefs > 0
    && Overruns(p.ring, if |p.got| <= |p.sent| then |p.sent| - |p.got| else 0, p.writers[step.t])
  }

  lemma StartIntact(w: Width, data: Contents)
    ensures Inv(Start(w, data))
  {
  }

  // A step keeps everything in order exactly unless it loses bytes.
  lemma StepKeeps(p: Pipe, step: Step)
    requires Inv(p) && Enabled(p, step)
    ensures Loses(p, step) ==> |Apply(p, step).sent| > |Apply(p, step).got| + PAGE && !Intact(Apply(p, step))
    ensures !Loses(p, step) ==> Inv(Apply(p, step))
    ensures p.sent <= Apply(p, step).sent && p.got <= Apply(p, step).got
    ensures Apply(p, step).ring.width == p.ring.width
  {
    match step
    case ReadTurn(t) => ReadKeeps(p, t);
    case WriteTurn(t) => if Loses(p, step) { WriteLoses(p, t); } else { WriteKeeps(p, t); }
    case BeginRead(_, _) => BeginKeeps(p, step);
    case BeginWrite(_, _) => BeginKeeps(p, step);
    case _ => RefKeeps(p, step);
  }

  lemma BeginKeeps(p: Pipe, step: Step)
    requires Inv(p) && Enabled(p, step) && (step.BeginRead? || step.BeginWrite?)
    ensures Inv(Apply(p, step)) && Apply(p, step).ring == p.ring
    ensures p.sent == Apply(p, step).sent && p.got == Apply(p, step).got
  {
  }

  lemma RefKeeps(p: Pipe, step: Step)
    requires Inv(p) && Enabled(p, step)
    requires step.AddRefRead? || step.AddRefWrite? || step.CloseRead? || step.CloseWrite?
    ensures Inv(Apply(p, step)) && Apply(p, step).ring == p.ring
    ensures p.sent == Apply(p, step).sent && p.got == Apply(p, step).got
  {
  }

  lemma ReadKeeps(p: Pipe, t: nat)
    requires Inv(p) && Enabled(p, ReadTurn(t))
    ensures Inv(DoRead(p, t)) && p.sent == DoRead(p, t).sent && p.got <= DoRead(p, t).got
  {
    var queue := p.sent[|p.got|..];
    EmptyIs(p.ring, |p.got|, queue);
    if queue != [] {
      TakeAllHolds(p.ring, |p.got|, queue, p.readers[t]);
      var k := Min(|queue|, p.readers[t]);
      MoreRead(p.sent, p.got, k);
    }
  }

  lemma MoreRead(sent: seq<bv8>, got: seq<bv8>, k: nat)
    requires got <= sent && |got| + k <= |sent|
    ensures var queue := sent[|got|..];
      got <= got + queue[..k] <= sent && sent[|got + queue[..k]|..] == queue[k..]
  {
    assert got + sent[|got|..][..k] == sent[..|got| + k];
  }

  lemma WriteKeeps(p: Pipe, t: nat)
    requires Inv(p) && Enabled(p, WriteTurn(t)) && !Loses(p, WriteTurn(t))
    ensures Inv(DoWrite(p, t)) && p.sent <= DoWrite(p, t).sent && p.got == DoWrite(p, t).got
  {
    var queue, buf := p.sent[|p.got|..], p.writers[t];
    FullIs(p.ring, |p.got|, queue);
    if p.readRefs > 0 && !IsFull(p.ring) {
      PutAllHolds(p.ring, |p.got|, queue, buf);
      var k := Min(PAGE - |queue|, |buf|);
      assert (p.sent + buf[..k])[|p.got|..] == queue + buf[..k];
    }
  }

  lemma WriteLoses(p: Pipe, t: nat)
    requires Inv(p) && Enabled(p, WriteTurn(t)) && Loses(p, WriteTurn(t))
    ensures p.sent <= DoWrite(p, t).sent && p.got == DoWrite(p, t).got
    ensures |DoWrite(p, t).sent| > |p.got| + PAGE && !Intact(DoWrite(p, t))
  {
    var queue := p.sent[|p.got|..];
    FullIs(p.ring, |p.got|, queue);
    PutAllOverruns(p.ring, |p.got|, queue, p.writers[t]);
  }

  predicate Legal(p: Pipe, steps: seq<Step>)
    decreases |steps|
  {
    |steps| == 0 || (Enabled(p, steps[0]) && Legal(Apply(p, steps[0]), steps[1..]))
  }

  function Run(p: Pipe, steps: seq<Step>): Pipe
    requires Legal(p, steps)
    decreases |steps|
  {
    if |steps| == 0 then p else Run(Apply(p, steps[0]), steps[1..])
  }

  // No step of the run loses bytes.
  predicate Lossless(p: Pipe, steps: seq<Step>)
    requires Legal(p, steps)
    decreases |steps|
  {
    |steps| == 0 || (!Loses(p, steps[0]) && Lossless(Apply(p, steps[0]), steps[1..]))
  }

  // Every state of the run is intact.
  ghost predicate AlwaysIntact(p: Pipe, steps: seq<Step>)
    requires Legal(p, steps)
    decreases |steps|
  {
    Intact(p) && (|steps| == 0 || AlwaysIntact(Apply(p, steps[0]), steps[1..]))
  }

  // A pipe stays intact throughout a run exactly if no write turn of it loses bytes.
  lemma {:induction false} IntactExactlyIfLossless(p: Pipe, steps: seq<Step>)
    requires Inv(p) && Legal(p, steps)
    ensures AlwaysIntact(p, steps) <==> Lossless(p, steps)
    ensures Lossless(p, steps) ==> Inv(Run(p, steps))
    decreases |steps|
  {
    if |steps| > 0 {
      var p1 := Apply(p, steps[0]);
      StepKeeps(p, steps[0]);
      if Loses(p, steps[0]) {
        assert !AlwaysIntact(p1, steps[1..]);
      } else {
        IntactExactlyIfLossless(p1, steps[1..]);
      }
    }
  }

  // Over any run in which no write turn loses bytes: what was read is a prefix of what was written, the rest is
  // in the buffer; a sleeping reader means an empty buffer and a live writer, a sleeping writer a full buffer
  // and a live reader, so the two ends never sleep at once; the buffer is freed once, when both ends have no
  // reference left.
  lemma PipesAreSound(w: Width, data: Contents, steps: seq<Step>)
    requires Legal(Start(w, data), steps) && Lossless(Start(w, data), steps)
    ensures var p := Run(Start(w, data), steps);
      && p.got <= p.sent && Holds(p.ring, |p.got|, p.sent[|p.got|..])
      && (p.asleepReading != {} ==> p.sent == p.got && p.writeRefs > 0)
      && (p.asleepWriting != {} ==> |p.sent| == |p.got| + PAGE && p.readRefs > 0)
      && (p.asleepReading == {} || p.asleepWriting == {})
      && p.frees == (if p.readRefs == 0 && p.writeRefs == 0 then 1 else 0)
  {
    StartIntact(w, data);
    IntactExactlyIfLossless(Start(w, data), steps);
  }

  lemma {:induction false} SentNeverShrinks(p: Pipe, steps: seq<Step>)
    requires Legal(p, steps)
    ensures |p.sent| <= |Run(p, steps).sent|
    decreases |steps|
  {
    if |steps| > 0 { SentNeverShrinks(Apply(p, steps[0]), steps[1..]); }
  }

  // A run is lossless if uint_fast16_t has 64 bits, or while the bytes written stay within its positions.
  lemma {:induction false} LosslessWithinTotal(p: Pipe, steps: seq<Step>)
    requires Inv(p) && Legal(p, steps)
    requires p.ring.width.Bits64? || |Run(p, steps).sent| <= p.ring.width.Last()
    ensures Lossless(p, steps)
    decreases |steps|
  {
    if |steps| > 0 {
      var p1 := Apply(p, steps[0]);
      StepKeeps(p, steps[0]);
      SentNeverShrinks(p1, steps[1..]);
      if !p.ring.width.Bits64? { PosSmall(p.ring.width, |p.got|); }
      LosslessWithinTotal(p1, steps[1..]);
    }
  }

  // Passing one byte through an empty pipe takes these steps.
  const ONE_BYTE: seq<Step> := [BeginWrite(0, [0]), WriteTurn(0), BeginRead(1, 1), ReadTurn(1)]

  function Passing(n: nat): seq<Step> {
    if n == 0 then [] else Passing(n - 1) + ONE_BYTE
  }

  // Nobody is in a call, both ends are open, and n bytes have gone through.
  ghost predicate Idle(p: Pipe, n: nat) {
    && Inv(p) && |p.sent| == |p.got| == n && p.readRefs == p.writeRefs == 1
    && p.readers == map[] && p.writers == map[] && p.asleepReading == {} && p.asleepWriting == {}
  }

  lemma {:induction false} RunTwice(p: Pipe, a: seq<Step>, b: seq<Step>)
    requires Legal(p, a) && Legal(Run(p, a), b)
    ensures Legal(p, a + b) && Run(p, a + b) == Run(Run(p, a), b)
    decreases |a|
  {
    if |a| == 0 {
      assert a + b == b;
    } else {
      RunTwice(Apply(p, a[0]), a[1..], b);
      assert (a + b)[1..] == a[1..] + b;
    }
  }

  // A write into an idle pipe, up to its turn; and a read, up to its turn.
  lemma BeforeWrite(p: Pipe, n: nat, buf: seq<bv8>)
    requires Idle(p, n) && buf != []
    ensures Enabled(p, BeginWrite(0, buf))
    ensures var p1 := Apply(p, BeginWrite(0, buf));
      && Inv(p1) && Enabled(p1, WriteTurn(0)) && p1.writers == map[0 := buf] && p1.ring == p.ring && p1.got == p.got
      && p1.sent == p.sent && (Loses(p1, WriteTurn(0)) <==> |buf| > PAGE && !SameLap(p.ring.width, p.ring.hpos))
  {
    StepKeeps(p, BeginWrite(0, buf));
  }

  lemma PassOne(p: Pipe, n: nat)
    requires Idle(p, n)
    ensures Legal(p, ONE_BYTE) && Idle(Run(p, ONE_BYTE), n + 1) && Run(p, ONE_BYTE).ring.width == p.ring.width
  {
    BeforeWrite(p, n, [0]);
    var p1 := Apply(p, BeginWrite(0, [0]));
    StepKeeps(p1, WriteTurn(0));
    FullIs(p1.ring, n, p1.sent[n..]);
    PutAllHolds(p1.ring, n, p1.sent[n..], [0]);
    var p2 := Apply(p1, WriteTurn(0));
    assert |p2.sent| == n + 1 && p2.readers == map[] && p2.writers == map[];
    StepKeeps(p2, BeginRead(1, 1));
    var p3 := Apply(p2, BeginRead(1, 1));
    EmptyIs(p3.ring, n, p3.sent[n..]);
    TakeAllHolds(p3.ring, n, p3.sent[n..], 1);
    StepKeeps(p3, ReadTurn(1));
    var p4 := Apply(p3, ReadTurn(1));
    assert p4.readers == map[] && |p4.got| == n + 1;
    FourSteps(p, BeginWrite(0, [0]), WriteTurn(0), BeginRead(1, 1), ReadTurn(1));
  }

  lemma FourSteps(p: Pipe, a: Step, b: Step, c: Step, d: Step)
    requires Enabled(p, a) && Enabled(Apply(p, a), b) && Enabled(Apply(Apply(p, a), b), c)
    requires Enabled(Apply(Apply(Apply(p, a), b), c), d)
    ensures Legal(p, [a, b, c, d]) && Run(p, [a, b, c, d]) == Apply(Apply(Apply(Apply(p, a), b), c), d)
  {
    var p1 := Apply(p, a);
    var p2 := Apply(p1, b);
    var p3 := Apply(p2, c);
    StepThen(p3, d, []);
    StepThen(p2, c, [d]);
    StepThen(p1, b, [c, d]);
    StepThen(p, a, [b, c, d]);
    assert [d] + [] == [d] && [c] + [d] == [c, d] && [b] + [c, d] == [b, c, d] && [a] + [b, c, d] == [a, b, c, d];
  }

  lemma StepThen(p: Pipe, a: Step, rest: seq<Step>)
    requires Enabled(p, a) && Legal(Apply(p, a), rest)
    ensures Legal(p, [a] + rest) && Run(p, [a] + rest) == Run(Apply(p, a), rest)
  {
    assert ([a] + rest)[1..] == rest;
  }

  lemma {:induction false} PassMany(p: Pipe, n: nat, k: nat)
    requires Idle(p, n)
    ensures Legal(p, Passing(k)) && Idle(Run(p, Passing(k)), n + k) && Run(p, Passing(k)).ring.width == p.ring.width
    decreases k
  {
    if k > 0 {
      PassMany(p, n, k - 1);
      PassOne(Run(p, Passing(k - 1)), n + k - 1);
      RunTwice(p, Passing(k - 1), ONE_BYTE);
    }
  }

  // A run that reads a byte which was not written at that place: pass bytes through until a page ahead of hpos
  // is in the next lap, then write a page and one byte more, and read one byte.
  function LosingRun(w: Width): seq<Step>
    requires !w.Bits64?
  {
    Passing(w.Last() - PAGE + 1)
    + [BeginWrite(0, [1] + seq(PAGE, _ => 2)), WriteTurn(0), BeginRead(1, 1), ReadTurn(1)]
  }

  lemma OverrunReadsWrongByte(w: Width, data: Contents)
    requires !w.Bits64?
    ensures Legal(Start(w, data), LosingRun(w))
    ensures var p := Run(Start(w, data), LosingRun(w)); |p.got| < |p.sent| && !(p.got <= p.sent)
  {
    var n, buf := w.Last() - PAGE + 1, [1] + seq(PAGE, _ => 2);
    StartIntact(w, data);
    PassMany(Start(w, data), 0, n);
    var p := Run(Start(w, data), Passing(n));
    PosSmall(w, n);
    WriteTooMuch(p, n, buf);
    RunTwice(Start(w, data), Passing(n), [BeginWrite(0, buf), WriteTurn(0), BeginRead(1, 1), ReadTurn(1)]);
    var q := Run(Start(w, data), LosingRun(w));
    assert q.got[n] == 2 && q.sent[n] == 1;
  }

  lemma WriteTooMuch(p: Pipe, n: nat, buf: seq<bv8>)
    requires Idle(p, n) && !SameLap(p.ring.width, p.ring.hpos) && |buf| == PAGE + 1
    ensures var steps := [BeginWrite(0, buf), WriteTurn(0), BeginRead(1, 1), ReadTurn(1)];
      && Legal(p, steps) && Run(p, steps).sent == p.sent + buf && Run(p, steps).got == p.got + [buf[PAGE]]
  {
    BeforeWrite(p, n, buf);
    var p1 := Apply(p, BeginWrite(0, buf));
    assert p1.sent[n..] == [];
    FullIs(p1.ring, n, []);
    OneTooMany(p1.ring, n, [], buf);
    var p2 := Apply(p1, WriteTurn(0));
    assert buf[..|buf|] == buf;
    var p3 := Apply(p2, BeginRead(1, 1));
    assert TakeAll(Rest(p3.ring), 0) == (Rest(p3.ring), []);
    FourSteps(p, BeginWrite(0, buf), WriteTurn(0), BeginRead(1, 1), ReadTurn(1));
  }

  lemma RunSnoc(p: Pipe, steps: seq<Step>, step: Step)
    requires Legal(p, steps) && Enabled(Run(p, steps), step)
    ensures Legal(p, steps + [step]) && Run(p, steps + [step]) == Apply(Run(p, steps), step)
  {
    StepThen(Run(p, steps), step, []);
    assert [step] + [] == [step];
    RunTwice(p, steps, [step]);
  }

  // The pipe in memory. Its trace is the run of turns that brought it where it is.
  class PipeObject {
    const rbuf: RingBuf
    var readRefs: nat
    var writeRefs: nat
    var frees: nat
    ghost const data0: Contents
    ghost var trace: seq<Step>

    ghost predicate Traced()
      reads this
    {
      Legal(Start(rbuf.width, data0), trace)
    }

    ghost function Model(): Pipe
      reads this
      requires Traced()
    {
      Run(Start(rbuf.width, data0), trace)
    }

    ghost predicate Valid()
      reads this, rbuf, rbuf.data
    {
      && rbuf.data.Length == PAGE && Traced()
      && var p := Model();
      && p.ring == rbuf.State() && p.readRefs == readRefs && p.writeRefs == writeRefs && p.frees == frees
    }

    // create_pipe
    constructor (w: Width)
      ensures Valid() && rbuf.width == w && trace == [] && readRefs == 1 && writeRefs == 1
      ensures fresh(rbuf) && fresh(rbuf.data)
    {
      var r := new RingBuf(w);
      rbuf, data0 := r, r.data[..];
      readRefs, writeRefs, frees, trace := 1, 1, 0, [];
    }

    // a thread enters pipe_read or pipe_write
    ghost method Enter(step: Step)
      requires Valid() && (step.BeginRead? || step.BeginWrite?) && Enabled(Model(), step)
      modifies this`trace
      ensures Valid() && trace == old(trace) + [step]
    {
      RunSnoc(Start(rbuf.width, data0), trace, step);
      trace := trace + [step];
    }

    // pipe_read from the top of its loop: asleep, or what it returns
    method Read(buf: array<bv8>, bufsz: nat, ghost t: nat) returns (asleep: bool, rc: nat)
      requires Valid() && 0 < bufsz <= buf.Length && buf != rbuf.data
      requires Enabled(Model(), ReadTurn(t)) && Model().readers[t] == bufsz
      modifies this`trace, rbuf`hpos, buf
      ensures Valid() && trace == old(trace) + [ReadTurn(t)]
      ensures asleep <==> t in Model().asleepReading
      ensures rc <= bufsz && Model().got == old(Model().got) + buf[..rc] && buf[rc..] == old(buf[..])[rc..]
    {
      ghost var p := Model();
      RunSnoc(Start(rbuf.width, data0), trace, ReadTurn(t));
      trace := trace + [ReadTurn(t)];
      if rbuf.hpos == rbuf.tpos { return writeRefs != 0, 0; }
      rc := rbuf.Take(buf, bufsz);
      asleep := false;
    }

    // pipe_write from the top of its loop
    method Write(buf: seq<bv8>, ghost t: nat) returns (asleep: bool, rc: int)
      requires Valid() && buf != []
      requires Enabled(Model(), WriteTurn(t)) && Model().writers[t] == buf
      modifies this`trace, rbuf`tpos, rbuf.data
      ensures Valid() && trace == old(trace) + [WriteTurn(t)]
      ensures asleep <==> t in Model().asleepWriting
      ensures rc == -EPIPE || 0 <= rc <= |buf|
      ensures Model().sent == if rc >= 0 then old(Model().sent) + buf[..rc] else old(Model().sent)
      ensures rc == -EPIPE <==> readRefs == 0
      ensures rc == 0 <==> asleep
    {
      RunSnoc(Start(rbuf.width, data0), trace, WriteTurn(t));
      trace := trace + [WriteTurn(t)];
      if (rbuf.tpos - rbuf.hpos) % U64 == PAGE {
        if readRefs == 0 { return false, -EPIPE; }
        return true, 0;
      }
      if readRefs == 0 { return false, -EPIPE; }
      rc := rbuf.Give(buf);
      asleep := false;
    }

    // uio_addref on either end
    method AddRef(reading: bool)
      requires Valid() && Enabled(Model(), if reading then AddRefRead else AddRefWrite)
      modifies this`trace, this`readRefs, this`writeRefs
      ensures Valid() && trace == old(trace) + [if reading then AddRefRead else AddRefWrite]
    {
      RunSnoc(Start(rbuf.width, data0), trace, if reading then AddRefRead else AddRefWrite);
      trace := trace + [if reading then AddRefRead else AddRefWrite];
      if reading { readRefs := readRefs + 1; } else { writeRefs := writeRefs + 1; }
    }

    // uio_close on either end, and pipe_close when it was the last reference to that end
    method Close(reading: bool)
      requires Valid() && Enabled(Model(), if reading then CloseRead else CloseWrite)
      modifies this`trace, this`readRefs, this`writeRefs, this`frees
      ensures Valid() && trace == old(trace) + [if reading then CloseRead else CloseWrite]
    {
      RunSnoc(Start(rbuf.width, data0), trace, if reading then CloseRead else CloseWrite);
      trace := trace + [if reading then CloseRead else CloseWrite];
      if reading { readRefs := readRefs - 1; } else { writeRefs := writeRefs - 1; }
      if (if reading then readRefs else writeRefs) == 0 && readRefs == 0 && writeRefs == 0 {
        frees := frees + 1;
      }
    }
  }
}
