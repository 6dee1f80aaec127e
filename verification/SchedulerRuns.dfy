// Locks, joins and fairness of the thread manager, over whole runs.

module SchedulerRuns {
  import opened Scheduler
  import opened SchedulerProofs

  // A lock is on its owner's list exactly once, on nobody else's, and is owned exactly when its count is positive.
  ghost predicate HeldOk(s: Sys)
    requires Shape(s)
  {
    && (forall l {:trigger l in s.owner} :: l in s.owner ==> s.owner[l] < NTHR)
    && (forall t, l {:trigger multiset(s.held[t])[l]} :: 0 <= t < NTHR ==>
          multiset(s.held[t])[l] == if l in s.owner && s.owner[l] == t then 1 else 0)
    && (forall l {:trigger l in s.owner} {:trigger l in s.cnt} :: l in s.owner <==> l in s.cnt && s.cnt[l] > 0)
  }

  // A thread waits for the release only of a lock that somebody owns.
  ghost predicate WaitersOwned(s: Sys)
    requires Shape(s)
  {
    forall t {:trigger s.state[t]} :: 0 <= t < NTHR && s.state[t].Waiting? && s.state[t].on.Release? ==>
      s.state[t].on.l in s.owner
  }

  // Only live threads hold locks; a thread that exits has given all of its locks back before it leaves.
  ghost predicate HoldersLive(s: Sys)
    requires Shape(s)
  {
    forall t {:trigger s.state[t]} {:trigger s.held[t]} :: 0 <= t < NTHR && s.held[t] != [] ==>
      s.state[t] != Uninit && (s.state[t] == Exited ==> t == s.current && (s.ctl == Dying || s.ctl == Freeing))
  }

  ghost predicate LocksOk(s: Sys) {
    Shape(s) && HeldOk(s) && WaitersOwned(s) && HoldersLive(s)
  }

  // c is an exited child of t, and t has been told.
  predicate ExitedChildOf(s: Sys, t: nat, c: nat)
    requires Shape(s) && c < NTHR
  {
    s.state[c] == Exited && s.parent[c] == t && !(c == s.current && s.ctl == Dying)
  }

  // No thread sleeps in thread_join on a child that has already exited.
  ghost predicate GoalOpen(s: Sys, t: nat)
    requires Shape(s) && t < NTHR
  {
    match s.goal[t]
    case NoGoal => false
    case Child(c) => c < NTHR && !ExitedChildOf(s, t, c)
    case AnyChild => forall c :: 0 <= c < NTHR - 1 ==> !ExitedChildOf(s, t, c)
  }

  ghost predicate JoinsOk(s: Sys) {
    Shape(s) && forall t {:trigger s.state[t]} ::
      0 <= t < NTHR && s.state[t].Waiting? && s.state[t].on.ChildExit? ==> s.state[t].on.t == t && GoalOpen(s, t)
  }

  ghost predicate Inv(s: Sys) {
    ListsOk(s) && LocksOk(s) && JoinsOk(s)
  }

  // An unowned lock has nobody waiting for it.
  lemma UnownedLockHasNoWaiters(s: Sys, l: nat)
    requires ListsOk(s) && LocksOk(s) && l !in s.owner
    ensures WaitList(s, Release(l)) == []
  {
    assert WaitListOk(s, Release(l));
    forall t: nat ensures multiset(WaitList(s, Release(l)))[t] == 0 {
      assert multiset(WaitList(s, Release(l)))[t] == WaitCount(s, Release(l), t);
      if t < NTHR { assert s.state[t] == At(s, t); }
    }
    NothingIn(WaitList(s, Release(l)));
  }

  lemma NothingIn(w: seq<nat>)
    requires forall t: nat :: multiset(w)[t] == 0
    ensures w == []
  {
    if |w| > 0 { FirstIn(w); }
  }

  lemma FirstIn(w: seq<nat>)
    requires |w| > 0
    ensures multiset(w)[w[0]] > 0
  {
    assert w[0] in w;
  }

  // Everybody who waits for c, and is not just about to, is woken.
  lemma AllWoken(s: Sys, c: Cond, t: nat)
    requires ListsOk(s) && t < NTHR && s.ctl != Marked
    ensures At(Broadcast(s, c), t) == if s.state[t] == Waiting(c) then Ready else s.state[t]
  {
    var w := WaitList(s, c);
    assert WaitListOk(s, c);
    var m: multiset<nat> := multiset(w);
    assert m[t] == WaitCount(s, c, t);
    assert t in m <==> t in w;
  }

  // Waking threads up only takes waiters away.
  lemma WokenOnly(s: Sys, c: Cond, t: nat)
    requires ListsOk(s) && t < NTHR
    ensures At(Broadcast(s, c), t) == s.state[t] || (s.state[t] == Waiting(c) && At(Broadcast(s, c), t) == Ready)
  {
    var w := WaitList(s, c);
    assert WaitListOk(s, c);
    var m: multiset<nat> := multiset(w);
    assert m[t] == WaitCount(s, c, t);
    assert t in m <==> t in w;
  }

  // A goal stays open when no more children of t are seen to have exited.
  lemma GoalStays(s: Sys, s1: Sys, t: nat)
    requires Shape(s) && Shape(s1) && t < NTHR && GoalOpen(s, t) && s1.goal[t] == s.goal[t]
    requires forall c {:trigger ExitedChildOf(s1, t, c)} ::
      0 <= c < NTHR && ExitedChildOf(s1, t, c) ==> ExitedChildOf(s, t, c)
    ensures GoalOpen(s1, t)
  {
  }

  lemma BroadcastKeeps(s: Sys, c: Cond)
    requires Inv(s)
    ensures Inv(Broadcast(s, c))
  {
    BroadcastLists(s, c);
    var b := Broadcast(s, c);
    forall t | 0 <= t < NTHR
      ensures b.state[t] == s.state[t] || (s.state[t] == Waiting(c) && b.state[t] == Ready)
    {
      WokenOnly(s, c, t);
    }
    assert HeldOk(b);
    forall t {:trigger s.state[t]} | 0 <= t < NTHR && b.state[t].Waiting? && b.state[t].on.ChildExit?
      ensures GoalOpen(b, t)
    {
      assert b.state[t] == s.state[t];
      GoalStays(s, b, t);
    }
  }

  lemma MarkKeeps(s: Sys, st: ThreadState, ctl: Control)
    requires Inv(s) && s.ctl == Go && (s.current == IDLE ==> st == Ready)
    requires (st.Waiting? && ctl == Marked) || (st == Ready && ctl == Yielding) || (st == Exited && ctl == Dying)
    requires st.Waiting? && st.on.Release? ==> st.on.l in s.owner
    requires st.Waiting? && st.on.ChildExit? ==> st.on.t == s.current && GoalOpen(s, s.current)
    ensures Inv(SetState(s, s.current, st).(ctl := ctl))
  {
    MarkLists(s, st, ctl);
    var s1 := SetState(s, s.current, st).(ctl := ctl);
    forall t {:trigger s1.state[t]} | 0 <= t < NTHR && s1.state[t].Waiting? && s1.state[t].on.ChildExit?
      ensures s1.state[t].on.t == t && GoalOpen(s1, t)
    {
      assert t != s.current ==> s.state[t] == s1.state[t];
      assert GoalOpen(s, t);
      GoalStays(s, s1, t);
    }
  }

  // Moving the current thread about the lists, with nothing else.
  lemma MoveKeeps(s: Sys, s1: Sys)
    requires Inv(s) && ListsOk(s1) && s1.owner == s.owner && s1.cnt == s.cnt && s1.held == s.held
    requires s1.goal == s.goal && s1.parent == s.parent
    requires s.ctl != Dying && (s.ctl == Freeing ==> s.held[s.current] == [])
    requires forall t {:trigger s1.state[t]} :: 0 <= t < NTHR ==>
      s1.state[t] == s.state[t] || (s.state[t] == Ready && s1.state[t] == Running)
    ensures Inv(s1)
  {
    forall t {:trigger s1.state[t]} | 0 <= t < NTHR && s1.state[t].Waiting? && s1.state[t].on.ChildExit?
      ensures s1.state[t].on.t == t && GoalOpen(s1, t)
    {
      assert GoalOpen(s, t);
      GoalStays(s, s1, t);
    }
  }

  lemma AcquireKeeps(s: Sys, l: nat)
    requires Inv(s) && Enabled(s, Acquire(l))
    ensures Inv(DoAcquire(s, l))
  {
    AcquireLists(s, l);
    if l in s.owner && s.owner[l] != s.current {
      MarkKeeps(s, Waiting(Release(l)), Marked);
    } else {
      var s1 := DoAcquire(s, l);
      if l !in s.owner {
        forall t, k {:trigger multiset(s1.held[t])[k]} | 0 <= t < NTHR
          ensures multiset(s1.held[t])[k] == if k in s1.owner && s1.owner[k] == t then 1 else 0
        {
          assert multiset(s.held[t])[k] == if k in s.owner && s.owner[k] == t then 1 else 0;
        }
      }
      SameJoins(s, s1);
    }
  }

  lemma SameJoins(s: Sys, s1: Sys)
    requires JoinsOk(s) && Shape(s1) && s1.state == s.state && s1.goal == s.goal && s1.parent == s.parent
    requires s1.current == s.current && s1.ctl == s.ctl
    ensures JoinsOk(s1)
  {
    forall t {:trigger s1.state[t]} | 0 <= t < NTHR && s1.state[t].Waiting? && s1.state[t].on.ChildExit?
      ensures s1.state[t].on.t == t && GoalOpen(s1, t)
    {
      assert GoalOpen(s, t);
      GoalStays(s, s1, t);
    }
  }

  // Taking a lock off its owner's list takes exactly that one off.
  lemma {:induction false} RemovedOnce(ls: seq<nat>, l: nat, k: nat)
    ensures multiset(RemoveFirst(ls, l))[k] == multiset(ls)[k] - if k == l && multiset(ls)[l] > 0 then 1 else 0
  {
    if |ls| > 0 {
      assert ls == [ls[0]] + ls[1..];
      if ls[0] != l { RemovedOnce(ls[1..], l, k); }
    }
  }

  lemma FreeKeeps(s: Sys, l: nat)
    requires Inv(s) && Enabled(s, Free(l))
    ensures Inv(DoFree(s, l))
  {
    FreeLists(s, l);
    var s1 := DoFree(s, l);
    if (if l in s.cnt then s.cnt[l] else 0) > 1 {
      SameJoins(s, s1);
    } else {
      BroadcastKeeps(s, Release(l));
      SameJoins(Broadcast(s, Release(l)), s1);
      forall t {:trigger s1.state[t]} | 0 <= t < NTHR && s1.state[t].Waiting? && s1.state[t].on.Release?
        ensures s1.state[t].on.l in s1.owner
      {
        AllWoken(s, Release(l), t);
      }
      forall t, k {:trigger multiset(s1.held[t])[k]} | 0 <= t < NTHR
        ensures multiset(s1.held[t])[k] == if k in s1.owner && s1.owner[k] == t then 1 else 0
      {
        assert multiset(s.held[t])[k] == if k in s.owner && s.owner[k] == t then 1 else 0;
        RemovedOnce(s.held[t], l, k);
      }
    }
  }

  lemma FreeLockKeeps(s: Sys)
    requires Inv(s) && Enabled(s, FreeLock)
    ensures Inv(DoFreeLock(s))
  {
    FreeLockLists(s);
    var l := s.held[s.current][0];
    var b := s.(owner := s.owner - {l}, cnt := s.cnt[l := 0], held := s.held[s.current := s.held[s.current][1..]]);
    var s1 := DoFreeLock(s);
    SameLists(s, b);
    FirstHeld(s);
    assert HeldOk(s1);
    forall t {:trigger s1.state[t]} | 0 <= t < NTHR
      ensures s1.state[t] == if s.state[t] == Waiting(Release(l)) then Ready else s.state[t]
    {
      AllWoken(b, Release(l), t);
    }
    forall t {:trigger s1.state[t]} | 0 <= t < NTHR && s1.state[t].Waiting? && s1.state[t].on.ChildExit?
      ensures s1.state[t].on.t == t && GoalOpen(s1, t)
    {
      assert GoalOpen(s, t);
      GoalStays(s, s1, t);
    }
  }

  lemma FirstHeld(s: Sys)
    requires Inv(s) && s.held[s.current] != []
    ensures var l := s.held[s.current][0];
      HeldOk(s.(owner := s.owner - {l}, cnt := s.cnt[l := 0], held := s.held[s.current := s.held[s.current][1..]]))
  {
    var ls := s.held[s.current];
    var l := ls[0];
    var b := s.(owner := s.owner - {l}, cnt := s.cnt[l := 0], held := s.held[s.current := ls[1..]]);
    assert ls == [l] + ls[1..];
    assert multiset(s.held[s.current])[l] > 0;
    assert l in s.owner && s.owner[l] == s.current;
    forall t, k {:trigger multiset(b.held[t])[k]} | 0 <= t < NTHR
      ensures multiset(b.held[t])[k] == if k in b.owner && b.owner[k] == t then 1 else 0
    {
      assert multiset(s.held[t])[k] == if k in s.owner && s.owner[k] == t then 1 else 0;
      assert multiset(ls)[k] == multiset([l])[k] + multiset(ls[1..])[k];
    }
  }

  lemma SpawnKeeps(s: Sys)
    requires Inv(s) && s.ctl == Go
    ensures Inv(DoSpawn(s))
  {
    SpawnLists(s);
    var n := FreeSlot(s, 1);
    var s1 := DoSpawn(s);
    if n < NTHR {
      assert s.held[n] == [];
      assert s1.held == s.held;
      forall t {:trigger s1.state[t]} | 0 <= t < NTHR && s1.state[t].Waiting? && s1.state[t].on.ChildExit?
        ensures s1.state[t].on.t == t && GoalOpen(s1, t)
      {
        assert GoalOpen(s, t);
        GoalStays(s, s1, t);
      }
    }
  }

  // Reclaiming an exited child hands its children to the current thread, which is not asleep.
  lemma ReclaimKeeps(s: Sys, tid: nat)
    requires Inv(s) && s.ctl == Go && tid < NTHR && s.state[tid] == Exited && s.parent[tid] == s.current
    ensures Inv(Reclaim(s, tid))
  {
    ReclaimLists(s, tid);
    var s1 := Reclaim(s, tid);
    assert s.held[tid] == [];
    forall t {:trigger s1.state[t]} | 0 <= t < NTHR && s1.state[t].Waiting? && s1.state[t].on.ChildExit?
      ensures s1.state[t].on.t == t && GoalOpen(s1, t)
    {
      assert GoalOpen(s, t);
      GoalStays(s, s1, t);
    }
  }

  lemma JoinOneKeeps(s: Sys, tid: int)
    requires Inv(s) && Enabled(s, JoinOne(tid))
    ensures Inv(DoJoinOne(s, tid))
  {
    if ValidChild(s, tid) {
      if s.state[tid] == Exited {
        ReclaimKeeps(s, tid);
      } else {
        GoalKeeps(s, Child(tid));
        MarkKeeps(s.(goal := s.goal[s.current := Child(tid)]), Waiting(ChildExit(s.current)), Marked);
      }
    }
  }

  lemma JoinAnyKeeps(s: Sys)
    requires Inv(s) && Enabled(s, JoinAny)
    ensures Inv(DoJoinAny(s))
  {
    if HasChild(s) {
      var t := ExitedChild(s, 0);
      if t < NTHR - 1 {
        ReclaimKeeps(s, t);
      } else {
        GoalKeeps(s, AnyChild);
        MarkKeeps(s.(goal := s.goal[s.current := AnyChild]), Waiting(ChildExit(s.current)), Marked);
      }
    }
  }

  lemma GoalKeeps(s: Sys, g: Goal)
    requires Inv(s) && s.ctl == Go
    ensures Inv(s.(goal := s.goal[s.current := g]))
  {
    var s1 := s.(goal := s.goal[s.current := g]);
    SameLists(s, s1);
    forall t {:trigger s1.state[t]} | 0 <= t < NTHR && s1.state[t].Waiting? && s1.state[t].on.ChildExit?
      ensures s1.state[t].on.t == t && GoalOpen(s1, t)
    {
      assert t != s.current;
      assert GoalOpen(s, t);
      GoalStays(s, s1, t);
    }
  }

  lemma DetachKeeps(s: Sys, child: nat)
    requires Inv(s) && Enabled(s, Detach(child))
    ensures Inv(Apply(s, Detach(child)))
  {
    var s1 := Apply(s, Detach(child));
    SameLists(s, s1);
    forall t {:trigger s1.state[t]} | 0 <= t < NTHR && s1.state[t].Waiting? && s1.state[t].on.ChildExit?
      ensures s1.state[t].on.t == t && GoalOpen(s1, t)
    {
      assert GoalOpen(s, t);
      GoalStays(s, s1, t);
    }
  }

  // By the time others can see the exit, a parent asleep in thread_join has been woken.
  lemma TellKeeps(s: Sys)
    requires Inv(s) && s.ctl == Dying
    ensures Inv(Apply(s, TellParent))
  {
    TellLists(s);
    var p := s.parent[s.current];
    var s1 := Apply(s, TellParent);
    if 0 <= p { BroadcastKeeps(s, ChildExit(p)); }
    forall t {:trigger s1.state[t]} | 0 <= t < NTHR && s1.state[t].Waiting? && s1.state[t].on.ChildExit?
      ensures s1.state[t].on.t == t && GoalOpen(s1, t)
    {
      if 0 <= p { AllWoken(s, ChildExit(p), t); }
      assert s.state[t] == s1.state[t];
      assert GoalOpen(s, t);
      forall c | 0 <= c < NTHR && ExitedChildOf(s1, t, c) ensures ExitedChildOf(s, t, c) {
        if 0 <= p { AllWoken(s, ChildExit(p), c); }
      }
      GoalStays(s, s1, t);
    }
  }

  // Every step keeps the invariant.
  lemma StepKeeps(s: Sys, step: Step)
    requires Inv(s) && Enabled(s, step)
    ensures Inv(Apply(s, step))
  {
    match step
    case Interrupt(c) => BroadcastKeeps(s, c);
    case Signal(c) => BroadcastKeeps(s, c);
    case Yield => MarkKeeps(s, Ready, Yielding);
    case Enqueue => EnqueueLists(s); MoveKeeps(s, Apply(s, step));
    case Wait(n) => MarkKeeps(s, Waiting(Other(n)), Marked);
    case Insert => InsertLists(s); MoveKeeps(s, Apply(s, step));
    case Dispatch => DispatchLists(s); DispatcherFindsThread(s); MoveKeeps(s, Apply(s, step));
    case Acquire(l) => AcquireKeeps(s, l);
    case Free(l) => FreeKeeps(s, l);
    case Spawn => SpawnKeeps(s);
    case JoinOne(tid) => JoinOneKeeps(s, tid);
    case JoinAny => JoinAnyKeeps(s);
    case Detach(tid) => DetachKeeps(s, tid);
    case Exit => MarkKeeps(s, Exited, Dying);
    case TellParent => TellKeeps(s);
    case FreeLock => FreeLockKeeps(s);
    case Finish => ControlLists(s, Leaving); MoveKeeps(s, Apply(s, step));
  }

  lemma StartInv()
    ensures Inv(Start())
  {
    StartLists();
  }

  // A run of the system.
  predicate Legal(s: Sys, steps: seq<Step>)
    decreases |steps|
  {
    |steps| == 0 || (Shape(s) && Enabled(s, steps[0]) && Legal(Apply(s, steps[0]), steps[1..]))
  }

  function Run(s: Sys, steps: seq<Step>): Sys
    requires Legal(s, steps)
    decreases |steps|
  {
    if |steps| == 0 then s else Run(Apply(s, steps[0]), steps[1..])
  }

  // The invariant holds in every reachable state.
  lemma {:induction false} RunKeeps(s: Sys, steps: seq<Step>)
    requires Inv(s) && Legal(s, steps)
    ensures Inv(Run(s, steps))
    decreases |steps|
  {
    if |steps| > 0 {
      StepKeeps(s, steps[0]);
      RunKeeps(Apply(s, steps[0]), steps[1..]);
    }
  }

  // While any thread runs its own code, nobody is asleep in thread_join on a child that has exited, and no
  // exited thread holds a lock.
  lemma NoWakeUpIsLost(steps: seq<Step>, t: nat, c: nat)
    requires Legal(Start(), steps) && t < NTHR && c < NTHR
    ensures var s := Run(Start(), steps);
      Shape(s) && (s.ctl == Go && s.state[t] == Waiting(ChildExit(t)) && s.state[c] == Exited && s.parent[c] == t ==>
        s.goal[t] != Child(c) && (c < NTHR - 1 ==> s.goal[t] != AnyChild))
    ensures var s := Run(Start(), steps); s.ctl == Go && s.state[c] == Exited ==> s.held[c] == []
  {
    StartInv();
    RunKeeps(Start(), steps);
    var s := Run(Start(), steps);
    if s.ctl == Go && s.state[t] == Waiting(ChildExit(t)) && s.state[c] == Exited && s.parent[c] == t {
      assert GoalOpen(s, t) && ExitedChildOf(s, t, c);
    }
  }

  // In every reachable state a lock is owned by t exactly when it is on t's list, once, and its count is
  // positive; nobody waits for a lock that is free.
  lemma LockOwnership(steps: seq<Step>, l: nat, t: nat)
    requires Legal(Start(), steps) && t < NTHR
    ensures var s := Run(Start(), steps);
      Shape(s) && multiset(s.held[t])[l] == (if l in s.owner && s.owner[l] == t then 1 else 0)
      && (l in s.owner <==> l in s.cnt && s.cnt[l] > 0)
      && (l !in s.owner ==> WaitList(s, Release(l)) == [])
  {
    StartInv();
    RunKeeps(Start(), steps);
    var s := Run(Start(), steps);
    if l !in s.owner { UnownedLockHasNoWaiters(s, l); }
  }

  // In every reachable state a thread is on at most one list, at most once, and the dispatcher finds a thread.
  lemma ListsInRuns(steps: seq<Step>, t: nat, c: Cond)
    requires Legal(Start(), steps) && t < NTHR
    ensures var s := Run(Start(), steps);
      multiset(s.ready)[t] == ReadyCount(s, t) && multiset(WaitList(s, c))[t] == WaitCount(s, c, t)
      && (s.ctl == Leaving ==> s.ready != [])
  {
    StartInv();
    RunKeeps(Start(), steps);
    var s := Run(Start(), steps);
    assert WaitListOk(s, c);
    if s.ctl == Leaving { DispatcherFindsThread(s); }
  }

  // An exited thread never runs again: it stays as it is until its slot is given back.
  lemma ExitedStaysExited(s: Sys, step: Step, t: nat)
    requires Inv(s) && Enabled(s, step) && t < NTHR && s.state[t] == Exited
    ensures |Apply(s, step).state| == NTHR
    ensures Apply(s, step).state[t] == Exited || (Apply(s, step).state[t] == Uninit && step != Dispatch)
  {
    if step.Interrupt? || step.Signal? || step.Free? || step.TellParent? || step.FreeLock? {
      WakingLeavesExited(s, step, t);
    } else {
      OthersLeaveExited(s, step, t);
    }
  }

  lemma WakingLeavesExited(s: Sys, step: Step, t: nat)
    requires Inv(s) && Enabled(s, step) && t < NTHR && s.state[t] == Exited
    requires step.Interrupt? || step.Signal? || step.Free? || step.TellParent? || step.FreeLock?
    ensures |Apply(s, step).state| == NTHR && Apply(s, step).state[t] == Exited
  {
    match step
    case Interrupt(c) => WokenOnly(s, c, t);
    case Signal(c) => WokenOnly(s, c, t);
    case Free(l) => WokenOnly(s, Release(l), t);
    case TellParent => if s.parent[s.current] >= 0 { WokenOnly(s, ChildExit(s.parent[s.current]), t); }
    case FreeLock =>
      var l := s.held[s.current][0];
      var b := s.(owner := s.owner - {l}, cnt := s.cnt[l := 0], held := s.held[s.current := s.held[s.current][1..]]);
      SameLists(s, b);
      WokenOnly(b, Release(l), t);
  }

  lemma OthersLeaveExited(s: Sys, step: Step, t: nat)
    requires Inv(s) && Enabled(s, step) && t < NTHR && s.state[t] == Exited
    requires !(step.Interrupt? || step.Signal? || step.Free? || step.TellParent? || step.FreeLock?)
    ensures |Apply(s, step).state| == NTHR
    ensures Apply(s, step).state[t] == Exited || (Apply(s, step).state[t] == Uninit && step != Dispatch)
  {
    if step.Dispatch? { DispatcherFindsThread(s); }
  }

  // One step moves a ready thread up by one place if it is a dispatch, and leaves it in place otherwise.
  lemma ReadyMovesUp(s: Sys, step: Step, k: nat)
    requires Inv(s) && Enabled(s, step) && k < |s.ready|
    ensures var r := Apply(s, step).ready;
      if step != Dispatch then k < |r| && r[k] == s.ready[k]
      else if k == 0 then Apply(s, step).current == s.ready[k] else k - 1 < |r| && r[k - 1] == s.ready[k]
  {
    if step == Dispatch { DispatcherFindsThread(s); }
  }

  function Dispatches(steps: seq<Step>): nat {
    if |steps| == 0 then 0 else (if steps[0] == Dispatch then 1 else 0) + Dispatches(steps[1..])
  }

  // The thread at position k of the ready list is the (k + 1)-st to be dispatched: after k others, whatever
  // else happens in between.
  lemma {:induction false} WaitsForAtMostK(s: Sys, steps: seq<Step>, k: nat)
    requires Inv(s) && Legal(s, steps) && k < |s.ready|
    requires |steps| > 0 && steps[|steps| - 1] == Dispatch && Dispatches(steps) == k + 1
    ensures Run(s, steps).current == s.ready[k] && Run(s, steps).ctl == Go
    decreases |steps|
  {
    var s1 := Apply(s, steps[0]);
    StepKeeps(s, steps[0]);
    ReadyMovesUp(s, steps[0], k);
    if |steps| == 1 {
      assert steps[1..] == [];
      DispatchLists(s);
    } else {
      assert steps[1..][|steps| - 2] == Dispatch;
      LastDispatch(steps[1..]);
      WaitsForAtMostK(s1, steps[1..], if steps[0] == Dispatch then k - 1 else k);
    }
  }

  lemma {:induction false} LastDispatch(steps: seq<Step>)
    requires |steps| > 0 && steps[|steps| - 1] == Dispatch
    ensures Dispatches(steps) >= 1
  {
    if |steps| > 1 {
      assert steps[1..][|steps| - 2] == Dispatch;
      LastDispatch(steps[1..]);
    }
  }
}
