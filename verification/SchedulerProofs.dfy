// What every step of the thread manager keeps.

module SchedulerProofs {
  import opened Scheduler

  // The current thread is marked ready but not on the ready list yet.
  predicate BetweenReady(s: Sys, t: nat) {
    t == s.current && s.ctl == Yielding
  }

  predicate BetweenWait(s: Sys, t: nat) {
    t == s.current && s.ctl == Marked
  }

  // How often t is on the ready list, and on the wait list of c: exactly once, or not at all.
  function ReadyCount(s: Sys, t: nat): nat {
    if At(s, t) == Ready && !BetweenReady(s, t) then 1 else 0
  }

  function WaitCount(s: Sys, c: Cond, t: nat): nat {
    if At(s, t) == Waiting(c) && !BetweenWait(s, t) then 1 else 0
  }

  ghost predicate ReadyListOk(s: Sys) {
    forall t {:trigger multiset(s.ready)[t]} :: multiset(s.ready)[t] == ReadyCount(s, t)
  }

  ghost predicate WaitListOk(s: Sys, c: Cond) {
    forall t {:trigger multiset(WaitList(s, c))[t]} :: multiset(WaitList(s, c))[t] == WaitCount(s, c, t)
  }

  ghost predicate WaitListsOk(s: Sys) {
    forall c {:trigger WaitListOk(s, c)} :: WaitListOk(s, c)
  }

  // The running thread, and what each control point says of its state.
  ghost predicate CurrentOk(s: Sys)
    requires Shape(s)
  {
    && (forall t {:trigger s.state[t]} :: 0 <= t < NTHR ==> (s.state[t] == Running <==> t == s.current && s.ctl == Go))
    && (s.ctl == Marked ==> s.state[s.current].Waiting?)
    && (s.ctl == Yielding ==> s.state[s.current] == Ready)
    && (s.ctl == Leaving ==> s.state[s.current] != Uninit)
    && (s.ctl == Dying || s.ctl == Freeing ==> s.state[s.current] == Exited)
  }

  // The idle thread never waits and never exits.
  ghost predicate IdleOk(s: Sys)
    requires Shape(s)
  {
    s.state[IDLE] == Running || s.state[IDLE] == Ready
  }

  ghost predicate ListsOk(s: Sys) {
    Shape(s) && ReadyListOk(s) && WaitListsOk(s) && CurrentOk(s) && IdleOk(s)
  }

  // Hence: the dispatcher never finds the ready list empty.
  lemma DispatcherFindsThread(s: Sys)
    requires ListsOk(s) && s.ctl == Leaving
    ensures s.ready != [] && s.ready[0] < NTHR && s.state[s.ready[0]] == Ready
  {
    assert multiset(s.ready)[IDLE] == 1;
    assert IDLE in s.ready;
    assert multiset(s.ready)[s.ready[0]] == ReadyCount(s, s.ready[0]);
    assert s.ready[0] in multiset(s.ready);
  }

  // No thread is on two lists, nor on one twice.
  lemma NeverOnTwoLists(s: Sys, t: nat, c: Cond, d: Cond)
    requires ListsOk(s)
    ensures multiset(s.ready)[t] + multiset(WaitList(s, c))[t] <= 1
    ensures c != d ==> multiset(WaitList(s, c))[t] + multiset(WaitList(s, d))[t] <= 1
  {
    assert multiset(s.ready)[t] == ReadyCount(s, t);
    assert WaitListOk(s, c) && WaitListOk(s, d);
    assert multiset(WaitList(s, c))[t] == WaitCount(s, c, t);
    assert multiset(WaitList(s, d))[t] == WaitCount(s, d, t);
  }

  lemma BroadcastLists(s: Sys, c: Cond)
    requires ListsOk(s)
    ensures ListsOk(Broadcast(s, c))
  {
    var b := Broadcast(s, c);
    var woken := WaitList(s, c);
    assert WaitListOk(s, c);
    forall t ensures t in woken <==> At(s, t) == Waiting(c) && !BetweenWait(s, t) {
      assert multiset(woken)[t] == WaitCount(s, c, t);
      assert t in multiset(woken) <==> t in woken;
    }
    forall t {:trigger multiset(b.ready)[t]} ensures multiset(b.ready)[t] == ReadyCount(b, t) {
      assert multiset(s.ready)[t] == ReadyCount(s, t);
      assert multiset(woken)[t] == WaitCount(s, c, t);
      assert multiset(b.ready) == multiset(s.ready) + multiset(woken);
    }
    forall d {:trigger WaitListOk(b, d)} ensures WaitListOk(b, d) {
      forall t {:trigger multiset(WaitList(b, d))[t]} ensures multiset(WaitList(b, d))[t] == WaitCount(b, d, t) {
        assert WaitListOk(s, d);
        assert multiset(WaitList(s, d))[t] == WaitCount(s, d, t);
      }
    }
  }

  // The lists do not depend on who is whose parent or which locks are held.
  lemma SameLists(s: Sys, s1: Sys)
    requires ListsOk(s) && Shape(s1)
    requires s1.state == s.state && s1.ready == s.ready && s1.waits == s.waits
    requires s1.current == s.current && s1.ctl == s.ctl
    ensures ListsOk(s1)
  {
    forall t {:trigger multiset(s1.ready)[t]} ensures multiset(s1.ready)[t] == ReadyCount(s1, t) {
      assert multiset(s.ready)[t] == ReadyCount(s, t);
    }
    forall d {:trigger WaitListOk(s1, d)} ensures WaitListOk(s1, d) { SameWaits(s, s1, d); }
  }

  lemma SameWaits(s: Sys, s1: Sys, d: Cond)
    requires WaitListOk(s, d) && WaitList(s1, d) == WaitList(s, d)
    requires forall t :: WaitCount(s1, d, t) == WaitCount(s, d, t)
    ensures WaitListOk(s1, d)
  {
    forall t {:trigger multiset(WaitList(s1, d))[t]} ensures multiset(WaitList(s1, d))[t] == WaitCount(s1, d, t) {
      assert multiset(WaitList(s, d))[t] == WaitCount(s, d, t);
    }
  }

  lemma SameReady(s: Sys, s1: Sys)
    requires ReadyListOk(s) && s1.ready == s.ready
    requires forall t :: ReadyCount(s1, t) == ReadyCount(s, t)
    ensures ReadyListOk(s1)
  {
    forall t {:trigger multiset(s1.ready)[t]} ensures multiset(s1.ready)[t] == ReadyCount(s1, t) {
      assert multiset(s.ready)[t] == ReadyCount(s, t);
    }
  }

  // The running thread changes its own state before it gives way.
  lemma MarkLists(s: Sys, st: ThreadState, ctl: Control)
    requires ListsOk(s) && s.ctl == Go && (s.current == IDLE ==> st == Ready)
    requires (st.Waiting? && ctl == Marked) || (st == Ready && ctl == Yielding) || (st == Exited && ctl == Dying)
    ensures ListsOk(SetState(s, s.current, st).(ctl := ctl))
  {
    var s1 := SetState(s, s.current, st).(ctl := ctl);
    SameReady(s, s1);
    forall d {:trigger WaitListOk(s1, d)} ensures WaitListOk(s1, d) {
      assert WaitListOk(s, d);
      SameWaits(s, s1, d);
    }
  }

  lemma EnqueueLists(s: Sys)
    requires ListsOk(s) && s.ctl == Yielding
    ensures ListsOk(Apply(s, Enqueue))
  {
    var s1 := Apply(s, Enqueue);
    forall t {:trigger multiset(s1.ready)[t]} ensures multiset(s1.ready)[t] == ReadyCount(s1, t) {
      assert multiset(s.ready)[t] == ReadyCount(s, t);
    }
    forall d {:trigger WaitListOk(s1, d)} ensures WaitListOk(s1, d) {
      assert WaitListOk(s, d);
      SameWaits(s, s1, d);
    }
  }

  lemma InsertLists(s: Sys)
    requires ListsOk(s) && s.ctl == Marked
    ensures ListsOk(Apply(s, Insert))
  {
    var s1 := Apply(s, Insert);
    SameReady(s, s1);
    forall d {:trigger WaitListOk(s1, d)} ensures WaitListOk(s1, d) {
      assert WaitListOk(s, d);
      if d != s.state[s.current].on {
        SameWaits(s, s1, d);
      } else {
        forall t {:trigger multiset(WaitList(s1, d))[t]} ensures multiset(WaitList(s1, d))[t] == WaitCount(s1, d, t) {
          assert multiset(WaitList(s, d))[t] == WaitCount(s, d, t);
        }
      }
    }
  }

  lemma DispatchLists(s: Sys)
    requires ListsOk(s) && s.ctl == Leaving
    ensures ListsOk(Apply(s, Dispatch)) && Apply(s, Dispatch).ctl == Go
    ensures Apply(s, Dispatch).current == s.ready[0]
  {
    DispatcherFindsThread(s);
    var s1 := Apply(s, Dispatch);
    assert s.ready == [s.ready[0]] + s1.ready;
    forall t {:trigger multiset(s1.ready)[t]} ensures multiset(s1.ready)[t] == ReadyCount(s1, t) {
      assert multiset(s.ready)[t] == ReadyCount(s, t);
      assert multiset(s.ready)[t] == multiset([s.ready[0]])[t] + multiset(s1.ready)[t];
    }
    forall d {:trigger WaitListOk(s1, d)} ensures WaitListOk(s1, d) {
      assert WaitListOk(s, d);
      SameWaits(s, s1, d);
    }
  }

  lemma SpawnLists(s: Sys)
    requires ListsOk(s) && s.ctl == Go
    ensures ListsOk(DoSpawn(s))
  {
    var s1 := DoSpawn(s);
    if FreeSlot(s, 1) < NTHR {
      forall t {:trigger multiset(s1.ready)[t]} ensures multiset(s1.ready)[t] == ReadyCount(s1, t) {
        assert multiset(s.ready)[t] == ReadyCount(s, t);
      }
      forall d {:trigger WaitListOk(s1, d)} ensures WaitListOk(s1, d) {
        assert WaitListOk(s, d);
        SameWaits(s, s1, d);
      }
    }
  }

  lemma ReclaimLists(s: Sys, tid: nat)
    requires ListsOk(s) && s.ctl == Go && tid < NTHR && s.state[tid] == Exited
    ensures ListsOk(Reclaim(s, tid))
  {
    var s1 := Reclaim(s, tid);
    SameReady(s, s1);
    forall d {:trigger WaitListOk(s1, d)} ensures WaitListOk(s1, d) {
      assert WaitListOk(s, d);
      SameWaits(s, s1, d);
    }
  }

  lemma ControlLists(s: Sys, ctl: Control)
    requires ListsOk(s) && ((s.ctl == Dying && ctl == Freeing) || (s.ctl == Freeing && ctl == Leaving))
    ensures ListsOk(s.(ctl := ctl))
  {
    var s1 := s.(ctl := ctl);
    SameReady(s, s1);
    forall d {:trigger WaitListOk(s1, d)} ensures WaitListOk(s1, d) {
      assert WaitListOk(s, d);
      SameWaits(s, s1, d);
    }
  }

  // Every step keeps every thread on exactly the list its state says, once.
  lemma StepKeepsLists(s: Sys, step: Step)
    requires ListsOk(s) && Enabled(s, step)
    ensures ListsOk(Apply(s, step))
  {
    match step
    case Interrupt(c) => BroadcastLists(s, c);
    case Signal(c) => BroadcastLists(s, c);
    case Yield => MarkLists(s, Ready, Yielding);
    case Enqueue => EnqueueLists(s);
    case Wait(n) => MarkLists(s, Waiting(Other(n)), Marked);
    case Insert => InsertLists(s);
    case Dispatch => DispatchLists(s);
    case Acquire(l) => AcquireLists(s, l);
    case Free(l) => FreeLists(s, l);
    case Spawn => SpawnLists(s);
    case JoinOne(tid) => JoinOneLists(s, tid);
    case JoinAny => JoinAnyLists(s);
    case Detach(tid) => SameLists(s, Apply(s, step));
    case Exit => MarkLists(s, Exited, Dying);
    case TellParent => TellLists(s);
    case FreeLock => FreeLockLists(s);
    case Finish => ControlLists(s, Leaving);
  }

  lemma AcquireLists(s: Sys, l: nat)
    requires ListsOk(s) && Enabled(s, Acquire(l))
    ensures ListsOk(DoAcquire(s, l))
  {
    if l in s.owner && s.owner[l] != s.current {
      MarkLists(s, Waiting(Release(l)), Marked);
    } else {
      SameLists(s, DoAcquire(s, l));
    }
  }

  lemma FreeLists(s: Sys, l: nat)
    requires ListsOk(s)
    ensures ListsOk(DoFree(s, l))
  {
    BroadcastLists(s, Release(l));
    if (if l in s.cnt then s.cnt[l] else 0) > 1 {
      SameLists(s, DoFree(s, l));
    } else {
      SameLists(Broadcast(s, Release(l)), DoFree(s, l));
    }
  }

  lemma JoinOneLists(s: Sys, tid: int)
    requires ListsOk(s) && Enabled(s, JoinOne(tid))
    ensures ListsOk(DoJoinOne(s, tid))
  {
    if ValidChild(s, tid) {
      if s.state[tid] == Exited {
        ReclaimLists(s, tid);
      } else {
        MarkLists(s, Waiting(ChildExit(s.current)), Marked);
        SameLists(MarkWaiting(s, ChildExit(s.current)), DoJoinOne(s, tid));
      }
    }
  }

  lemma JoinAnyLists(s: Sys)
    requires ListsOk(s) && Enabled(s, JoinAny)
    ensures ListsOk(DoJoinAny(s))
  {
    if HasChild(s) {
      var t := ExitedChild(s, 0);
      if t < NTHR - 1 {
        ReclaimLists(s, t);
      } else {
        MarkLists(s, Waiting(ChildExit(s.current)), Marked);
        SameLists(MarkWaiting(s, ChildExit(s.current)), DoJoinAny(s));
      }
    }
  }

  lemma TellLists(s: Sys)
    requires ListsOk(s) && s.ctl == Dying
    ensures ListsOk(Apply(s, TellParent))
  {
    var p := s.parent[s.current];
    if 0 <= p {
      BroadcastLists(s, ChildExit(p));
      ControlLists(Broadcast(s, ChildExit(p)), Freeing);
    } else {
      ControlLists(s, Freeing);
    }
  }

  lemma FreeLockLists(s: Sys)
    requires ListsOk(s) && Enabled(s, FreeLock)
    ensures ListsOk(DoFreeLock(s))
  {
    var l := s.held[s.current][0];
    var b := s.(owner := s.owner - {l}, cnt := s.cnt[l := 0], held := s.held[s.current := s.held[s.current][1..]]);
    SameLists(s, b);
    BroadcastLists(b, Release(l));
  }

  lemma StartLists()
    ensures ListsOk(Start())
  {
    var s := Start();
    forall t {:trigger multiset(s.ready)[t]} ensures multiset(s.ready)[t] == ReadyCount(s, t) {
      assert s.ready == [IDLE];
    }
    forall d {:trigger WaitListOk(s, d)} ensures WaitListOk(s, d) {
      assert WaitList(s, d) == [];
    }
  }
}
