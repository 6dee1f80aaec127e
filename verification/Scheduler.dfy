// The thread manager of sys/thread.c as a state machine. A thread gives up the processor only in Dispatch;
// an interrupt service routine may broadcast a condition between any two steps. Each step is a stretch of
// code with interrupts disabled, or one that no interrupt service routine can disturb.

module Scheduler {
  const NTHR: nat := 32
  const MAIN: nat := 0
  const IDLE: nat := 31

  // A thread's child_exit condition, a lock's release condition, or any other.
  datatype Cond = ChildExit(t: nat) | Release(l: nat) | Other(n: nat)

  // state and, for a waiting thread, wait_cond
  datatype ThreadState = Uninit | Waiting(on: Cond) | Running | Ready | Exited

  // Where the current thread is: in its own code; in condition_wait, marked but not yet on the wait list; in
  // running_thread_suspend, marked ready but not yet on the ready list, or about to switch; in
  // running_thread_exit, before and after telling its parent.
  datatype Control = Go | Marked | Yielding | Leaving | Dying | Freeing

  // What a thread in thread_join is waiting for.
  datatype Goal = NoGoal | Child(c: nat) | AnyChild

  const NOBODY: int := -1

  datatype Sys = Sys(
    state: seq<ThreadState>,
    ready: seq<nat>,
    waits: map<Cond, seq<nat>>,
    current: nat,
    ctl: Control,
    parent: seq<int>,
    goal: seq<Goal>,
    owner: map<nat, nat>,
    cnt: map<nat, nat>,
    held: seq<seq<nat>>)

  predicate Shape(s: Sys) {
    |s.state| == |s.parent| == |s.goal| == |s.held| == NTHR && s.current < NTHR
  }

  function WaitList(s: Sys, c: Cond): seq<nat> {
    if c in s.waits then s.waits[c] else []
  }

  function At(s: Sys, t: nat): ThreadState {
    if t < |s.state| then s.state[t] else Uninit
  }

  function SetState(s: Sys, t: nat, st: ThreadState): Sys
    requires t < |s.state|
  {
    s.(state := s.state[t := st])
  }

  // condition_broadcast
  function Broadcast(s: Sys, c: Cond): Sys {
    var woken := WaitList(s, c);
    s.(state := seq(|s.state|, t requires 0 <= t < |s.state| => if t in woken then Ready else s.state[t]),
       ready := s.ready + woken,
       waits := s.waits[c := []])
  }

  datatype Step =
    | Interrupt(c: Cond)      // an interrupt service routine broadcasts
    | Signal(c: Cond)         // the current thread broadcasts
    | Yield | Enqueue         // running_thread_suspend of a running thread
    | Wait(n: nat) | Insert   // condition_wait
    | Dispatch                // the switch to the head of the ready list
    | Acquire(l: nat) | Free(l: nat)
    | Spawn | JoinOne(tid: int) | JoinAny | Detach(child: nat)
    | Exit | TellParent | FreeLock | Finish

  function MarkWaiting(s: Sys, c: Cond): Sys
    requires s.current < |s.state|
  {
    SetState(s, s.current, Waiting(c)).(ctl := Marked)
  }

  // The lowest free slot above 0, as create_thread finds it, or NTHR.
  function FreeSlot(s: Sys, from: nat): (t: nat)
    requires |s.state| == NTHR && 1 <= from <= NTHR
    ensures from <= t <= NTHR && (t < NTHR ==> s.state[t] == Uninit)
    ensures forall k :: from <= k < t ==> s.state[k] != Uninit
    decreases NTHR - from
  {
    if from == NTHR || s.state[from] == Uninit then from else FreeSlot(s, from + 1)
  }

  // thread_reclaim of an exited child of the current thread
  function Reclaim(s: Sys, tid: nat): Sys
    requires Shape(s) && tid < NTHR
  {
    s.(state := s.state[tid := Uninit],
       parent := seq(NTHR, t requires 0 <= t < NTHR =>
         if t >= 1 && s.state[t] != Uninit && s.parent[t] == tid then s.parent[tid] else s.parent[t]))
  }

  // The first exited child in the table, or NTHR - 1: the scan of thread_join(0) stops before the last slot.
  function ExitedChild(s: Sys, from: nat): (t: nat)
    requires Shape(s) && from <= NTHR - 1
    ensures from <= t <= NTHR - 1 && (t < NTHR - 1 ==> s.state[t] == Exited && s.parent[t] == s.current)
    ensures forall k :: from <= k < t ==> !(s.state[k] == Exited && s.parent[k] == s.current)
    decreases NTHR - from
  {
    if from == NTHR - 1 || (s.state[from] == Exited && s.parent[from] == s.current) then from
    else ExitedChild(s, from + 1)
  }

  predicate HasChild(s: Sys)
    requires Shape(s)
  {
    exists t :: 0 <= t < NTHR - 1 && s.state[t] != Uninit && s.parent[t] == s.current
  }

  predicate ValidChild(s: Sys, tid: int)
    requires Shape(s)
  {
    0 <= tid < NTHR && s.state[tid] != Uninit && s.parent[tid] == s.current
  }

  predicate Enabled(s: Sys, step: Step)
    requires Shape(s)
  {
    match step
    case Interrupt(_) => true
    case Signal(_) => s.ctl == Go
    case Yield => s.ctl == Go
    case Enqueue => s.ctl == Yielding
    case Wait(_) => s.ctl == Go && s.current != IDLE
    case Insert => s.ctl == Marked
    case Dispatch => s.ctl == Leaving
    case Acquire(_) => s.ctl == Go && s.current != IDLE
    case Free(l) => s.ctl == Go && l in s.owner && s.owner[l] == s.current
    case Spawn => s.ctl == Go
    case JoinOne(tid) => s.ctl == Go && s.current != IDLE && tid != 0
    case JoinAny => s.ctl == Go && s.current != IDLE
    case Detach(tid) => s.ctl == Go && tid < NTHR
    case Exit => s.ctl == Go && s.current != MAIN && s.current != IDLE
    case TellParent => s.ctl == Dying
    case FreeLock => s.ctl == Freeing && s.held[s.current] != []
    case Finish => s.ctl == Freeing && s.held[s.current] == []
  }

  function RemoveFirst(ls: seq<nat>, l: nat): seq<nat> {
    if |ls| == 0 then [] else if ls[0] == l then ls[1..] else [ls[0]] + RemoveFirst(ls[1..], l)
  }

  function Hold(s: Sys, l: nat): Sys
    requires Shape(s)
  {
    s.(owner := s.owner[l := s.current], cnt := s.cnt[l := 1],
       held := s.held[s.current := [l] + s.held[s.current]])
  }

  // lock_acquire: one turn of its loop
  function DoAcquire(s: Sys, l: nat): Sys
    requires Shape(s)
  {
    if l in s.owner && s.owner[l] == s.current then
      s.(cnt := s.cnt[l := (if l in s.cnt then s.cnt[l] else 0) + 1])
    else if l in s.owner then MarkWaiting(s, Release(l))
    else Hold(s, l)
  }

  // lock_release, and lock_release_completely at the last level
  function DoFree(s: Sys, l: nat): Sys
    requires Shape(s)
  {
    var n := if l in s.cnt then s.cnt[l] else 0;
    if n > 1 then s.(cnt := s.cnt[l := n - 1])
    else
      var b := Broadcast(s, Release(l));
      b.(owner := b.owner - {l}, cnt := b.cnt[l := 0], held := b.held[b.current := RemoveFirst(b.held[b.current], l)])
  }

  function DoSpawn(s: Sys): Sys
    requires Shape(s)
  {
    var t := FreeSlot(s, 1);
    if t == NTHR then s
    else s.(state := s.state[t := Ready], ready := s.ready + [t], parent := s.parent[t := s.current],
            goal := s.goal[t := NoGoal], held := s.held[t := []])
  }

  // thread_join, one turn of its loop
  function DoJoinOne(s: Sys, tid: int): Sys
    requires Shape(s)
  {
    if !ValidChild(s, tid) then s
    else if s.state[tid] == Exited then Reclaim(s, tid)
    else MarkWaiting(s.(goal := s.goal[s.current := Child(tid)]), ChildExit(s.current))
  }

  function DoJoinAny(s: Sys): Sys
    requires Shape(s)
  {
    if !HasChild(s) then s
    else
      var t := ExitedChild(s, 0);
      if t < NTHR - 1 then Reclaim(s, t)
      else MarkWaiting(s.(goal := s.goal[s.current := AnyChild]), ChildExit(s.current))
  }

  function DoFreeLock(s: Sys): Sys
    requires Shape(s) && s.held[s.current] != []
  {
    var l := s.held[s.current][0];
    var b := s.(owner := s.owner - {l}, cnt := s.cnt[l := 0], held := s.held[s.current := s.held[s.current][1..]]);
    Broadcast(b, Release(l))
  }

  function DoDispatch(s: Sys): Sys
    requires Shape(s)
  {
    if s.ready == [] || s.ready[0] >= NTHR then s
    else SetState(s, s.ready[0], Running).(ready := s.ready[1..], current := s.ready[0], ctl := Go)
  }

  function Apply(s: Sys, step: Step): Sys
    requires Shape(s) && Enabled(s, step)
  {
    match step
    case Interrupt(c) => Broadcast(s, c)
    case Signal(c) => Broadcast(s, c)
    case Yield => SetState(s, s.current, Ready).(ctl := Yielding)
    case Enqueue => s.(ready := s.ready + [s.current], ctl := Leaving)
    case Wait(n) => MarkWaiting(s, Other(n))
    case Insert =>
      if s.state[s.current].Waiting? then
        var c := s.state[s.current].on;
        s.(waits := s.waits[c := WaitList(s, c) + [s.current]], ctl := Leaving)
      else s
    case Dispatch => DoDispatch(s)
    case Acquire(l) => DoAcquire(s, l)
    case Free(l) => DoFree(s, l)
    case Spawn => DoSpawn(s)
    case JoinOne(tid) => DoJoinOne(s, tid)
    case JoinAny => DoJoinAny(s)
    case Detach(tid) => s.(parent := s.parent[tid := NOBODY])
    case Exit => SetState(s, s.current, Exited).(ctl := Dying)
    case TellParent =>
      var p := s.parent[s.current];
      (if 0 <= p then Broadcast(s, ChildExit(p)) else s).(ctl := Freeing)
    case FreeLock => DoFreeLock(s)
    case Finish => s.(ctl := Leaving)
  }

  // After threads_init: main runs, idle is ready.
  function Start(): Sys {
    Sys(seq(NTHR, t => if t == MAIN then Running else if t == IDLE then Ready else Uninit), [IDLE], map[], MAIN, Go,
        seq(NTHR, t => if t == IDLE then MAIN else NOBODY), seq(NTHR, _ => NoGoal), map[], map[], seq(NTHR, _ => []))
  }
}
