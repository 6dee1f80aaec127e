// The block driver of sys/dev/vioblk.c against a device that takes and finishes requests in its own time.
// Threads, the device and the interrupt service routine interleave freely; a thread inside the driver may
// look at the rings at any time, so spurious wake-ups are included.

module VioBlk {
  import opened Errors

  type Sector = s: seq<bv8> | |s| == 512 witness seq(512, _ => 0)

  const IDX: nat := 0x1_0000                          // the ring indices are 16 bits wide
  const U64: nat := 0x1_0000_0000_0000_0000

  // How many bytes a transfer moves: whole blocks, cut off at the end of the device. The sum that is
  // compared with the capacity is 64 bits wide.
  function Bytes(pos: nat, bytecnt: nat, blksz: nat, capacity: nat): nat
    requires blksz > 0 && pos <= capacity
  {
    var n := WholeBlocks(bytecnt, blksz);
    if (pos + n) % U64 > capacity then WholeBlocks(capacity - pos, blksz) else n
  }

  function WholeBlocks(n: nat, blksz: nat): nat
    requires blksz > 0
  {
    n / blksz * blksz
  }

  // VIRTIO_BLK_T_IN and VIRTIO_BLK_T_OUT
  datatype Kind = In | Out

  // A transfer of count sectors from sector first on; data are the sectors of a store.
  datatype Request = Request(kind: Kind, first: nat, count: nat, data: seq<Sector>)

  // A thread in the driver: outside; before the lock; at the top of the loop with done sectors moved; with
  // the descriptors filled; with the request sent; and about to return. got is the caller's buffer; snap and
  // final are the disk when the lock was taken and when it was given back.
  datatype Thread =
    | Outside
    | Start(req: Request)
    | Top(req: Request, done: nat, got: seq<Sector>, snap: seq<Sector>)
    | Filled(req: Request, done: nat, got: seq<Sector>, snap: seq<Sector>)
    | Sent(req: Request, done: nat, got: seq<Sector>, snap: seq<Sector>)
    | Over(req: Request, rc: int, got: seq<Sector>, snap: seq<Sector>, final: seq<Sector>)

  const FREE: int := -1

  datatype Sys = Sys(
    disk: seq<Sector>,
    avail: nat, used: nat,                                // availq.idx and usedq.idx
    seen: nat, busy: bool,                                // the device: requests taken, one in progress
    kind: Kind, sector: nat, data: Sector, ok: bool,      // the one set of buffers
    owner: int,                                           // of the lock
    threads: seq<Thread>)

  datatype Step =
    | Call(t: nat, kind: Kind, pos: nat, bytecnt: nat, blksz: nat, data: seq<Sector>, isOpen: bool)
    | Lock(t: nat) | Fill(t: nat) | Submit(t: nat) | Check(t: nat) | Finish(t: nat) | Return(t: nat)
    | Take | Complete(ok: bool, junk: Sector)

  function Capacity(s: Sys): nat {
    512 * |s.disk|
  }

  predicate Busy(th: Thread) {
    th.Top? || th.Filled? || th.Sent?
  }

  predicate Enabled(s: Sys, step: Step) {
    match step
    case Call(t, kind, pos, bytecnt, blksz, data, _) =>
      t < |s.threads| && s.threads[t] == Outside && blksz > 0 && blksz % 512 == 0 && pos + bytecnt < U64
      && (kind == Out ==> 512 * |data| == bytecnt / 512 * 512)
    case Lock(t) => t < |s.threads| && s.threads[t].Start? && s.owner == FREE
    case Fill(t) => t < |s.threads| && s.threads[t].Top? && s.threads[t].done < s.threads[t].req.count
    case Submit(t) => t < |s.threads| && s.threads[t].Filled?
    case Check(t) => t < |s.threads| && s.threads[t].Sent?
    case Finish(t) => t < |s.threads| && s.threads[t].Top? && s.threads[t].done >= s.threads[t].req.count
    case Return(t) => t < |s.threads| && s.threads[t].Over?
    case Take => s.seen != s.avail && !s.busy
    case Complete(_, _) => s.busy
  }

  function Put(s: Sys, t: nat, th: Thread): Sys
    requires t < |s.threads|
  {
    s.(threads := s.threads[t := th])
  }

  // the checks and the size of vioblk_storage_fetch and vioblk_storage_store
  function DoCall(s: Sys, t: nat, kind: Kind, pos: nat, bytecnt: nat, blksz: nat, data: seq<Sector>, isOpen: bool): Sys
    requires t < |s.threads| && blksz > 0
  {
    var none := Request(kind, 0, 0, []);
    if !isOpen || pos % 512 != 0 || pos > Capacity(s) then Put(s, t, Over(none, -EINVAL, [], s.disk, s.disk))
    else
      var n := Bytes(pos, bytecnt, blksz, Capacity(s)) / 512;
      if n == 0 then Put(s, t, Over(none, 0, [], s.disk, s.disk))
      else Put(s, t, Start(Request(kind, pos / 512, n, if n <= |data| then data[..n] else data)))
  }

  function DoFill(s: Sys, t: nat): Sys
    requires Enabled(s, Fill(t))
  {
    var th := s.threads[t];
    var s0 := Put(s, t, Filled(th.req, th.done, th.got, th.snap));
    var s1 := s0.(kind := th.req.kind, sector := th.req.first + th.done);
    if th.req.kind == Out && th.done < |th.req.data| then s1.(data := th.req.data[th.done]) else s1
  }

  // One look at the rings.
  function DoCheck(s: Sys, t: nat): Sys
    requires Enabled(s, Check(t))
  {
    var th := s.threads[t];
    if s.used != s.avail then s
    else
      var got := if th.req.kind == In then th.got + [s.data] else th.got;
      if !s.ok then Put(s, t, Over(th.req, -EIO, got, th.snap, s.disk)).(owner := FREE)
      else Put(s, t, Top(th.req, th.done + 1, got, th.snap))
  }

  // The device moves one sector between the disk and the buffer, or fails and leaves junk behind.
  function DoComplete(s: Sys, ok: bool, junk: Sector): Sys {
    var good := ok && s.sector < |s.disk|;
    var s1 := s.(busy := false, used := (s.used + 1) % IDX, ok := good);
    if s.kind == In then s1.(data := if good then s.disk[s.sector] else junk)
    else if s.sector < |s.disk| then s1.(disk := s.disk[s.sector := if good then s.data else junk])
    else s1
  }

  function Apply(s: Sys, step: Step): Sys
    requires Enabled(s, step)
  {
    match step
    case Call(t, kind, pos, bytecnt, blksz, data, o) => DoCall(s, t, kind, pos, bytecnt, blksz, data, o)
    case Lock(t) => Put(s, t, Top(s.threads[t].req, 0, [], s.disk)).(owner := t)
    case Fill(t) => DoFill(s, t)
    case Submit(t) =>
      var th := s.threads[t];
      Put(s, t, Sent(th.req, th.done, th.got, th.snap)).(avail := (s.avail + 1) % IDX)
    case Check(t) => DoCheck(s, t)
    case Finish(t) =>
      var th := s.threads[t];
      Put(s, t, Over(th.req, 512 * th.done, th.got, th.snap, s.disk)).(owner := FREE)
    case Return(t) => Put(s, t, Outside)
    case Take => s.(busy := true, seen := (s.seen + 1) % IDX)
    case Complete(ok, junk) => DoComplete(s, ok, junk)
  }
}

module VioBlkProofs {
  import opened Arith
  import opened VioBlk

  // As many whole blocks as were asked for and as fit, exactly unless the 64-bit sum wraps around to a number
  // within the capacity.
  lemma BytesAreRight(pos: nat, bytecnt: nat, blksz: nat, capacity: nat)
    requires blksz > 0 && pos <= capacity < U64 && bytecnt < U64
    ensures var n := WholeBlocks(bytecnt, blksz);
      Bytes(pos, bytecnt, blksz, capacity) == WholeBlocks(Min(bytecnt, capacity - pos), blksz)
      <==> pos + n < U64 || (pos + n) % U64 > capacity
  {
    var n, m := WholeBlocks(bytecnt, blksz), WholeBlocks(capacity - pos, blksz);
    DivLess(bytecnt, blksz);
    DivLess(capacity - pos, blksz);
    if bytecnt > capacity - pos && n <= capacity - pos { DivSame(bytecnt, capacity - pos, blksz); }
    WrapsRight(pos, n, m, bytecnt, capacity);
  }

  lemma WrapsRight(pos: nat, n: nat, m: nat, bytecnt: nat, capacity: nat)
    requires pos <= capacity < U64 && n <= bytecnt < U64 && m <= capacity - pos
    requires bytecnt >= capacity - pos && n <= capacity - pos ==> n == m
    ensures (if (pos + n) % U64 > capacity then m else n) == (if bytecnt < capacity - pos then n else m)
      <==> (pos + n < U64 || (pos + n) % U64 > capacity)
  {
  }

  // On a disk of two sectors, a call from the second sector on for all but 512 of the 2^64 bytes.
  lemma WrappedSumIsNotCut()
    ensures Bytes(512, U64 - 512, 512, 1024) == U64 - 512 && WholeBlocks(Min(U64 - 512, 1024 - 512), 512) == 512
  {
  }

  // Two numbers in the same block.
  lemma DivSame(a: nat, b: nat, d: nat)
    requires d > 0 && a / d * d <= b <= a
    ensures a / d == b / d
  {
    DivLess(a, d);
    DivLess(b, d);
    var q, r := a / d, b / d;
    assert (q - r) * d == q * d - r * d;
    assert (r - q) * d == r * d - q * d;
    if q > r { MulAtLeast(q - r, d); }
    if r > q { MulAtLeast(r - q, d); }
  }

  // disk with the sectors data from sector first on.
  function Overwritten(disk: seq<Sector>, first: nat, data: seq<Sector>): seq<Sector> {
    seq(|disk|, i requires 0 <= i < |disk| => if first <= i < first + |data| then data[i - first] else disk[i])
  }

  // Requests stay on the disk; a store has a sector for each.
  predicate ReqOk(s: Sys, r: Request) {
    r.first + r.count <= |s.disk| && (r.kind == Out ==> |r.data| == r.count)
  }

  // Nothing outstanding.
  predicate Quiet(s: Sys) {
    s.used == s.avail && s.seen == s.avail && !s.busy
  }

  // One request outstanding, taken by the device or not.
  predicate Pending(s: Sys) {
    s.avail == (s.used + 1) % IDX && (if s.busy then s.seen == s.avail else s.seen == s.used)
  }

  // What the disk and the caller's buffer are after done sectors.
  ghost predicate Progress(s: Sys, r: Request, done: nat, got: seq<Sector>, snap: seq<Sector>) {
    && ReqOk(s, r) && done <= r.count && |snap| == |s.disk|
    && (r.kind == In ==> s.disk == snap && got == snap[r.first..r.first + done])
    && (r.kind == Out ==> s.disk == Overwritten(snap, r.first, r.data[..done]))
  }

  // The buffers hold request number done of r.
  predicate Buffered(s: Sys, r: Request, done: nat) {
    && s.kind == r.kind && s.sector == r.first + done && done < r.count
    && (r.kind == Out && done < |r.data| ==> s.data == r.data[done])
  }

  // The device has answered it: on success with the sector moved.
  ghost predicate Answered(s: Sys, r: Request, done: nat, got: seq<Sector>, snap: seq<Sector>) {
    && ReqOk(s, r) && done < r.count && |snap| == |s.disk|
    && (r.kind == In ==> s.disk == snap && got == snap[r.first..r.first + done])
    && (r.kind == In && s.ok ==> s.data == snap[r.first + done])
    && (r.kind == Out ==> s.ok ==> s.disk == Overwritten(snap, r.first, r.data[..done + 1]))
    && (r.kind == Out ==> AllBut(s.disk, Overwritten(snap, r.first, r.data[..done]), r.first + done))
  }

  ghost predicate AllBut(a: seq<Sector>, b: seq<Sector>, i: nat) {
    |a| == |b| && forall j :: 0 <= j < |a| && j != i ==> a[j] == b[j]
  }

  // What a call that is over has done.
  ghost predicate OverOk(th: Thread)
    requires th.Over?
  {
    var r := th.req;
    && |th.final| == |th.snap| && (r.kind == In ==> th.final == th.snap)
    && (forall j :: 0 <= j < |th.snap| && !(r.first <= j < r.first + r.count) ==> th.final[j] == th.snap[j])
    && (th.rc > 0 ==>
      && th.rc == 512 * r.count && r.first + r.count <= |th.snap|
      && (r.kind == In ==> th.got == th.snap[r.first..r.first + r.count])
      && (r.kind == Out ==> |r.data| == r.count && th.final == Overwritten(th.snap, r.first, r.data)))
  }

  ghost predicate ThreadOk(s: Sys, th: Thread) {
    match th
    case Outside => true
    case Start(r) => ReqOk(s, r) && r.count > 0
    case Top(r, done, got, snap) => Quiet(s) && Progress(s, r, done, got, snap)
    case Filled(r, done, got, snap) => Quiet(s) && Progress(s, r, done, got, snap) && Buffered(s, r, done)
    case Sent(r, done, got, snap) =>
      if s.used == s.avail then Quiet(s) && Answered(s, r, done, got, snap)
      else Pending(s) && Progress(s, r, done, got, snap) && Buffered(s, r, done)
    case Over(_, _, _, _, _) => OverOk(th)
  }

  ghost predicate Inv(s: Sys) {
    && s.avail < IDX && s.used < IDX && s.seen < IDX
    && (s.owner == FREE ==> Quiet(s))
    && (s.owner != FREE ==> 0 <= s.owner < |s.threads| && Busy(s.threads[s.owner]))
    && (forall t {:trigger s.threads[t]} :: 0 <= t < |s.threads| ==>
          (Busy(s.threads[t]) ==> t == s.owner) && ThreadOk(s, s.threads[t]))
  }

  // At most one request is ever outstanding.
  lemma AtMostOneOutstanding(s: Sys)
    requires Inv(s)
    ensures (s.avail - s.used) % IDX == 0 || (s.avail - s.used) % IDX == 1
  {
    if s.owner != FREE { assert ThreadOk(s, s.threads[s.owner]); }
  }

  // The threads that are not in the middle of a transfer do not mind what goes on.
  lemma IdleOk(s: Sys, s1: Sys, th: Thread)
    requires ThreadOk(s, th) && !Busy(th) && |s1.disk| == |s.disk|
    ensures ThreadOk(s1, th)
  {
  }

  // One thread takes a step; the others are idle.
  lemma OnlyThread(s: Sys, s1: Sys, t: nat)
    requires Inv(s) && t < |s.threads| == |s1.threads| && |s1.disk| == |s.disk|
    requires forall k :: 0 <= k < |s.threads| && k != t ==> s1.threads[k] == s.threads[k]
    requires s.owner == t || s.owner == FREE
    requires s1.avail < IDX && s1.used < IDX && s1.seen < IDX && ThreadOk(s1, s1.threads[t])
    requires if Busy(s1.threads[t]) then s1.owner == t else s1.owner == FREE && Quiet(s1)
    ensures Inv(s1)
  {
    forall k {:trigger s1.threads[k]} | 0 <= k < |s1.threads|
      ensures (Busy(s1.threads[k]) ==> k == s1.owner) && ThreadOk(s1, s1.threads[k])
    {
      if k != t {
        assert ThreadOk(s, s.threads[k]);
        IdleOk(s, s1, s.threads[k]);
      }
    }
  }

  // A thread outside a transfer moves while another may be in one.
  lemma IdleThread(s: Sys, t: nat, th: Thread)
    requires Inv(s) && t < |s.threads| && !Busy(s.threads[t]) && !Busy(th) && ThreadOk(s, th)
    ensures Inv(Put(s, t, th))
  {
    var s1 := Put(s, t, th);
    forall k {:trigger s1.threads[k]} | 0 <= k < |s1.threads|
      ensures (Busy(s1.threads[k]) ==> k == s1.owner) && ThreadOk(s1, s1.threads[k])
    {
      if k != t {
        assert ThreadOk(s, s.threads[k]);
        assert s1.threads[k] == s.threads[k];
      }
    }
  }

  lemma CallKeeps(s: Sys, t: nat, kind: Kind, pos: nat, bytecnt: nat, blksz: nat, data: seq<Sector>, isOpen: bool)
    requires Inv(s) && Enabled(s, Call(t, kind, pos, bytecnt, blksz, data, isOpen))
    ensures Inv(DoCall(s, t, kind, pos, bytecnt, blksz, data, isOpen))
  {
    var th := DoCall(s, t, kind, pos, bytecnt, blksz, data, isOpen).threads[t];
    if th.Start? { SizeOk(s, pos, bytecnt, blksz); }
    IdleThread(s, t, th);
  }

  lemma SizeOk(s: Sys, pos: nat, bytecnt: nat, blksz: nat)
    requires blksz > 0 && blksz % 512 == 0 && pos + bytecnt < U64 && pos % 512 == 0 && pos <= Capacity(s)
    ensures var n := Bytes(pos, bytecnt, blksz, Capacity(s));
      n <= bytecnt && pos + n <= Capacity(s) && pos / 512 + n / 512 <= |s.disk| && n / 512 <= bytecnt / 512
  {
    DivLess(bytecnt, blksz);
    DivLess(Capacity(s) - pos, blksz);
    if bytecnt > Capacity(s) - pos && WholeBlocks(bytecnt, blksz) <= Capacity(s) - pos {
      DivSame(bytecnt, Capacity(s) - pos, blksz);
    }
  }

  lemma LockKeeps(s: Sys, t: nat)
    requires Inv(s) && Enabled(s, Lock(t))
    ensures Inv(Apply(s, Lock(t)))
  {
    var s1 := Apply(s, Lock(t));
    assert ThreadOk(s, s.threads[t]);
    assert Overwritten(s.disk, s.threads[t].req.first, []) == s.disk;
    OnlyThread(s, s1, t);
  }

  lemma FillKeeps(s: Sys, t: nat)
    requires Inv(s) && Enabled(s, Fill(t))
    ensures Inv(DoFill(s, t))
  {
    assert ThreadOk(s, s.threads[t]);
    OnlyThread(s, DoFill(s, t), t);
  }

  lemma SubmitKeeps(s: Sys, t: nat)
    requires Inv(s) && Enabled(s, Submit(t))
    ensures Inv(Apply(s, Submit(t)))
  {
    assert ThreadOk(s, s.threads[t]);
    OnlyThread(s, Apply(s, Submit(t)), t);
  }

  lemma CheckKeeps(s: Sys, t: nat)
    requires Inv(s) && Enabled(s, Check(t))
    ensures Inv(DoCheck(s, t))
  {
    var th := s.threads[t];
    assert ThreadOk(s, th);
    if s.used == s.avail {
      assert th.snap[th.req.first..th.req.first + th.done + 1]
        == th.snap[th.req.first..th.req.first + th.done] + [th.snap[th.req.first + th.done]];
      OnlyThread(s, DoCheck(s, t), t);
    }
  }

  lemma FinishKeeps(s: Sys, t: nat)
    requires Inv(s) && Enabled(s, Finish(t))
    ensures Inv(Apply(s, Finish(t)))
  {
    var th := s.threads[t];
    assert ThreadOk(s, th);
    assert th.req.kind == Out ==> th.req.data[..th.done] == th.req.data;
    OnlyThread(s, Apply(s, Finish(t)), t);
  }

  lemma TakeKeeps(s: Sys)
    requires Inv(s) && Enabled(s, Take)
    ensures Inv(Apply(s, Take))
  {
    assert s.owner != FREE;
    assert ThreadOk(s, s.threads[s.owner]);
    OnlyThread(s, Apply(s, Take), s.owner);
  }

  lemma CompleteKeeps(s: Sys, ok: bool, junk: Sector)
    requires Inv(s) && s.busy
    ensures Inv(DoComplete(s, ok, junk))
  {
    assert s.owner != FREE;
    var th := s.threads[s.owner];
    assert ThreadOk(s, th);
    var s1 := DoComplete(s, ok, junk);
    if th.req.kind == Out {
      OneMore(s.disk, th.snap, th.req.first, th.req.data, th.done, s.data);
    }
    OnlyThread(s, s1, s.owner);
  }

  lemma OneMore(disk: seq<Sector>, snap: seq<Sector>, first: nat, data: seq<Sector>, done: nat, b: Sector)
    requires done < |data| && first + |data| <= |snap| && disk == Overwritten(snap, first, data[..done])
    requires b == data[done]
    ensures disk[first + done := b] == Overwritten(snap, first, data[..done + 1])
  {
  }

  lemma StepKeeps(s: Sys, step: Step)
    requires Inv(s) && Enabled(s, step)
    ensures Inv(Apply(s, step)) && |Apply(s, step).disk| == |s.disk|
  {
    match step
    case Call(t, kind, pos, bytecnt, blksz, data, o) => CallKeeps(s, t, kind, pos, bytecnt, blksz, data, o);
    case Lock(t) => LockKeeps(s, t);
    case Fill(t) => FillKeeps(s, t);
    case Submit(t) => SubmitKeeps(s, t);
    case Check(t) => CheckKeeps(s, t);
    case Finish(t) => FinishKeeps(s, t);
    case Return(t) => IdleThread(s, t, Outside);
    case Take => TakeKeeps(s);
    case Complete(ok, junk) => CompleteKeeps(s, ok, junk);
  }

  predicate Legal(s: Sys, steps: seq<Step>)
    decreases |steps|
  {
    |steps| == 0 || (Enabled(s, steps[0]) && Legal(Apply(s, steps[0]), steps[1..]))
  }

  function Run(s: Sys, steps: seq<Step>): Sys
    requires Legal(s, steps)
    decreases |steps|
  {
    if |steps| == 0 then s else Run(Apply(s, steps[0]), steps[1..])
  }

  // The driver before any call: nothing outstanding, every thread outside, the lock free.
  predicate Fresh(s: Sys) {
    s.avail < IDX && Quiet(s) && s.owner == FREE && forall t :: 0 <= t < |s.threads| ==> s.threads[t] == Outside
  }

  lemma {:induction false} RunKeeps(s: Sys, steps: seq<Step>)
    requires Inv(s) && Legal(s, steps)
    ensures Inv(Run(s, steps))
    decreases |steps|
  {
    if |steps| > 0 {
      StepKeeps(s, steps[0]);
      RunKeeps(Apply(s, steps[0]), steps[1..]);
    }
  }

  // Whatever the threads and the device do: at most one request is outstanding, a fetch that succeeds returns
  // exactly its sectors of the disk, which did not change meanwhile, and a store that succeeds has changed
  // exactly its sectors; one that fails has changed no others.
  lemma TransfersAreExact(s: Sys, steps: seq<Step>, t: nat)
    requires Fresh(s) && Legal(s, steps) && t < |Run(s, steps).threads|
    ensures var e := Run(s, steps); (e.avail - e.used) % IDX == 0 || (e.avail - e.used) % IDX == 1
    ensures var th := Run(s, steps).threads[t]; th.Over? ==> OverOk(th)
  {
    RunKeeps(s, steps);
    AtMostOneOutstanding(Run(s, steps));
    assert ThreadOk(Run(s, steps), Run(s, steps).threads[t]);
  }
}
