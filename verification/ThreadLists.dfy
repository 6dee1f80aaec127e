// The linked lists of sys/thread.c: thread lists with tlinsert and tlremove, condition_broadcast and
// running_thread_suspend over them, and a thread's list of held locks.

module ThreadLists {
  import opened Sequences

  datatype Status = Waiting | Running | Ready | Exited

  class Thread {
    var state: Status
    var waiting: bool       // wait_cond is not NULL
    var listNext: Thread?
  }

  ghost function At(ns: seq<Thread>, i: int): Thread? {
    if 0 <= i < |ns| then ns[i] else null
  }

  ghost predicate Linked(ns: seq<Thread>)
    reads ns`listNext
  {
    NoDup(ns) && forall i {:trigger ns[i].listNext} :: 0 <= i < |ns| ==> ns[i].listNext == At(ns, i + 1)
  }

  ghost predicate Apart(a: seq<Thread>, b: seq<Thread>) {
    forall t {:trigger t in a} {:trigger t in b} :: t in a ==> t !in b
  }

  class ThreadList {
    var head: Thread?
    var tail: Thread?
    ghost var list: seq<Thread>

    ghost predicate Valid()
      reads this, list`listNext
    {
      head == At(list, 0) && tail == At(list, |list| - 1) && Linked(list)
    }

    // tlclear
    constructor ()
      ensures Valid() && list == []
    {
      head, tail, list := null, null, [];
    }

    // tlempty
    method IsEmpty() returns (empty: bool)
      requires Valid()
      ensures empty <==> list == []
    {
      empty := head == null;
    }

    // tlinsert
    method Insert(thr: Thread)
      requires Valid() && thr !in list
      modifies this, thr`listNext, list`listNext
      ensures Valid() && list == old(list) + [thr]
    {
      NoDupAppend(list, thr);
      if |list| > 0 { OnlyAt(list, |list| - 1); }
      thr.listNext := null;
      if tail != null {
        tail.listNext := thr;
      } else {
        head := thr;
      }
      tail := thr;
      list := list + [thr];
    }

    // tlremove
    method Remove() returns (thr: Thread?)
      requires Valid()
      modifies this, list`listNext
      ensures Valid() && (thr == null <==> old(list) == [])
      ensures thr == null ==> list == []
      ensures thr != null ==> thr == old(list)[0] && list == old(list)[1..] && thr.listNext == null
    {
      thr := head;
      if thr == null { return; }
      NoDupRest(list);
      head := thr.listNext;
      if head != null {
        thr.listNext := null;
      } else {
        tail := null;
      }
      thr.listNext := null;
      list := list[1..];
    }
  }

  // condition_broadcast: every waiter goes to the end of the ready list, in order.
  method Broadcast(wait: ThreadList, ready: ThreadList)
    requires wait.Valid() && ready.Valid() && wait != ready && Apart(wait.list, ready.list)
    modifies wait, ready, wait.list`listNext, wait.list`state, wait.list`waiting, ready.list`listNext
    ensures wait.Valid() && ready.Valid() && wait.list == []
    ensures ready.list == old(ready.list) + old(wait.list)
    ensures forall t: Thread {:trigger t in old(wait.list)} :: t in old(wait.list) ==> t.state == Ready && !t.waiting
  {
    ghost var w: seq<Thread> := wait.list;
    ghost var n := 0;
    var empty := wait.IsEmpty();
    while !empty
      invariant wait.Valid() && ready.Valid() && n <= |w| && wait.list == w[n..] && empty == (wait.list == [])
      invariant ready.list == old(ready.list) + w[..n] && Apart(wait.list, ready.list)
      invariant forall i {:trigger w[i]} :: 0 <= i < n ==> w[i].state == Ready && !w[i].waiting
      decreases |w| - n
    {
      NoDupRest(wait.list);
      NotAmong(w, n, old(ready.list));
      WakeOne(wait, ready, w[n]);
      n := n + 1;
      empty := wait.IsEmpty();
    }
  }

  lemma NotAmong(w: seq<Thread>, n: nat, ready: seq<Thread>)
    requires n < |w| && NoDup(w) && Apart(w, ready)
    ensures Apart(w[n + 1..], ready + w[..n + 1])
  {
    forall t {:trigger t in w[n + 1..]} | t in w[n + 1..] ensures t !in ready + w[..n + 1] {
      var i :| n + 1 <= i < |w| && w[i] == t;
      OnlyAt(w, i);
      assert w[i] in w;
    }
  }

  method WakeOne(wait: ThreadList, ready: ThreadList, ghost first: Thread)
    requires wait.Valid() && ready.Valid() && wait != ready && wait.list != [] && first == wait.list[0]
    requires Apart(wait.list, ready.list)
    modifies wait, ready, wait.list`listNext, first`state, first`waiting, ready.list`listNext
    ensures wait.Valid() && ready.Valid() && wait.list == old(wait.list)[1..]
    ensures ready.list == old(ready.list) + [first] && first.state == Ready && !first.waiting
  {
    NoDupRest(wait.list);
    assert first in wait.list;
    ghost var rest := wait.list[1..];
    forall i | 0 <= i < |rest| ensures rest[i] !in ready.list && rest[i] != first {
      assert rest[i] == wait.list[i + 1];
      assert rest[i] in wait.list;
    }
    var removed := wait.Remove();
    removed.state := Ready;
    removed.waiting := false;
    ready.Insert(removed);
  }

  // running_thread_suspend up to the switch: a running thread queues up behind the others; the head of the
  // ready list is next.
  method Suspend(current: Thread, ready: ThreadList) returns (next: Thread)
    requires ready.Valid() && (current.state == Running ==> current !in ready.list)
    requires current.state != Running ==> ready.list != []
    modifies ready, ready.list`listNext, ready.list`state, current`state, current`listNext
    ensures ready.Valid() && next.state == Running
    ensures [next] + ready.list == old(ready.list) + if old(current.state) == Running then [current] else []
    ensures next != current && old(current.state) == Running ==> current.state == Ready
    ensures old(current.state) != Running && current !in old(ready.list) ==>
      current.state == old(current.state) && current.listNext == old(current.listNext)
  {
    if current.state == Running {
      current.state := Ready;
      ready.Insert(current);
    }
    assert ready.list != [];
    next := ready.Remove();
    next.state := Running;
  }

  // condition_wait up to the switch: the running thread is marked, queued up at the condition, and the head of
  // the ready list is next.
  method ConditionWait(current: Thread, wait: ThreadList, ready: ThreadList) returns (next: Thread)
    requires wait.Valid() && ready.Valid() && wait != ready && Apart(wait.list, ready.list)
    requires current !in wait.list && current !in ready.list && ready.list != []
    modifies wait, ready, current, wait.list`listNext, ready.list`listNext, ready.list`state
    ensures wait.Valid() && ready.Valid() && Apart(wait.list, ready.list)
    ensures wait.list == old(wait.list) + [current] && current.state == Waiting && current.waiting
    ensures [next] + ready.list == old(ready.list) && next.state == Running
  {
    current.state := Waiting;
    current.waiting := true;
    current.listNext := null;
    ghost var r := ready.list;
    forall i | 0 <= i < |r| ensures r[i] !in wait.list && r[i] != current {
      assert r[i] in r;
    }
    wait.Insert(current);
    next := Suspend(current, ready);
    assert r == [next] + ready.list;
  }

  // A lock: its owner is a thread's number, its list links the locks one thread holds, and release is the wait
  // list of its condition.
  class Lock {
    var owned: bool
    var owner: nat
    var cnt: nat
    var next: Lock?
    const release: ThreadList

    constructor ()
      ensures !owned && cnt == 0 && next == null && release.Valid() && release.list == [] && fresh(release)
    {
      owned, owner, cnt, next := false, 0, 0, null;
      release := new ThreadList();
    }
  }

  ghost function LockAt(ls: seq<Lock>, i: int): Lock? {
    if 0 <= i < |ls| then ls[i] else null
  }

  ghost predicate Held(head: Lock?, ls: seq<Lock>)
    reads ls`next
  {
    head == LockAt(ls, 0) && NoDup(ls)
    && forall i {:trigger ls[i].next} :: 0 <= i < |ls| ==> ls[i].next == LockAt(ls, i + 1)
  }

  // The locks that thread tid holds, from lock_list on: each exactly once, with a positive count.
  class Holder {
    const tid: nat
    var lockList: Lock?
    ghost var locks: seq<Lock>

    ghost predicate Valid()
      reads this, locks
    {
      Held(lockList, locks) && Mine(locks)
    }

    ghost predicate Mine(ls: seq<Lock>)
      reads ls`owned, ls`owner, ls`cnt
    {
      forall i {:trigger ls[i]} :: 0 <= i < |ls| ==> ls[i].owned && ls[i].owner == tid && ls[i].cnt > 0
    }

    // lock_acquire: a lock that another thread holds is waited for, any other one is the thread's at once.
    method Acquire(lock: Lock) returns (got: bool)
      requires Valid() && (lock.owned && lock.owner == tid <==> lock in locks)
      modifies this, lock
      ensures Valid() && (got <==> !(old(lock.owned) && old(lock.owner) != tid))
      ensures got ==> lock.owned && lock.owner == tid
      ensures got ==>
        if old(lock.owned) then locks == old(locks) && lock.cnt == old(lock.cnt) + 1
        else locks == [lock] + old(locks) && lock.cnt == 1
      ensures !got ==>
        locks == old(locks) && lock.owned && lock.owner == old(lock.owner) && lock.cnt == old(lock.cnt)
    {
      if !(lock.owned && lock.owner == tid) {
        if lock.owned { return false; }
        NoDupCons(lock, locks);
        lock.owned, lock.owner := true, tid;
        lock.cnt := 1;
        lock.next := lockList;
        lockList := lock;
        locks := [lock] + locks;
      } else {
        lock.cnt := lock.cnt + 1;
      }
      got := true;
    }

    // lock_release
    method Release(lock: Lock, ready: ThreadList, ghost i: nat)
      requires Valid() && i < |locks| && lock == locks[i]
      requires lock.release.Valid() && ready.Valid() && lock.release != ready && Apart(lock.release.list, ready.list)
      modifies this, lock, locks`next, lock.release, ready, ready.list`listNext
      modifies lock.release.list`listNext, lock.release.list`state, lock.release.list`waiting
      ensures Valid() && lock.cnt == old(lock.cnt) - 1 && lock.release.Valid() && ready.Valid()
      ensures lock.cnt > 0 ==> locks == old(locks) && lock.owned
      ensures lock.cnt > 0 ==> lock.release.list == old(lock.release.list) && ready.list == old(ready.list)
      ensures lock.cnt == 0 ==> locks == Without(old(locks), i) && !lock.owned && lock.next == null
      ensures lock.cnt == 0 ==> Woken(lock.release.list, old(lock.release.list), ready.list, old(ready.list))
      ensures lock.cnt == 0 ==>
        forall t {:trigger t in old(lock.release.list)} :: t in old(lock.release.list) ==>
          t.state == Ready && !t.waiting
    {
      OnlyAt(locks, i);
      lock.cnt := lock.cnt - 1;
      if lock.cnt == 0 { Unhold(lock, ready, i); }
    }

    // lock_release_completely: the waiters are woken, and the walk to the lock takes it off the list
    method Unhold(lock: Lock, ready: ThreadList, ghost i: nat)
      requires Held(lockList, locks) && i < |locks| && lock == locks[i] && lock.cnt == 0
      requires Mine(Without(locks, i))
      requires lock.release.Valid() && ready.Valid() && lock.release != ready && Apart(lock.release.list, ready.list)
      modifies this, lock`next, lock`owned, locks`next, lock.release, ready, ready.list`listNext
      modifies lock.release.list`listNext, lock.release.list`state, lock.release.list`waiting
      ensures Valid() && locks == Without(old(locks), i) && !lock.owned && lock.next == null
      ensures lock.release.Valid() && ready.Valid()
      ensures Woken(lock.release.list, old(lock.release.list), ready.list, old(ready.list))
      ensures forall t {:trigger t in old(lock.release.list)} :: t in old(lock.release.list) ==>
        t.state == Ready && !t.waiting
    {
      Broadcast(lock.release, ready);
      Unlink(lock, i);
    }

    // the walk of lock_release_completely
    method Unlink(lock: Lock, ghost i: nat)
      requires Held(lockList, locks) && i < |locks| && lock == locks[i] && Mine(Without(locks, i))
      modifies this, lock`next, lock`owned, locks`next
      ensures Valid() && locks == Without(old(locks), i) && !lock.owned && lock.next == null
    {
      NoDupWithout(locks, i);
      OnlyAt(locks, i);
      if lockList == lock {
        lockList := lock.next;
      } else {
        var prev := Before(lock, i);
        OnlyAt(locks, i - 1);
        prev.next := lock.next;
      }
      lock.owned := false;
      lock.next := null;
      locks := Without(locks, i);
    }

    method Before(lock: Lock, ghost i: nat) returns (prev: Lock)
      requires Held(lockList, locks) && 0 < i < |locks| && lock == locks[i]
      ensures prev == locks[i - 1]
    {
      OnlyAt(locks, i);
      prev := lockList;
      ghost var k := 0;
      while prev.next != lock
        invariant k < i && prev == locks[k]
        decreases i - k
      {
        prev := prev.next;
        k := k + 1;
      }
    }

    // release_all_thread_locks: all locks are free, and all waiters are ready, lock by lock in order
    method ReleaseAll(ready: ThreadList, ghost waits: seq<seq<Thread>>, ghost releases: set<ThreadList>,
                      ghost threads: set<Thread>)
      requires Valid() && ready.Valid() && AllApart(waits, 0, ready.list) && |waits| == |locks|
      requires Among(waits, ready.list, threads)
      requires Waited(locks, 0, waits, releases, threads) && OwnConditions(locks, ready)
      modifies this, locks, ready, threads, releases
      ensures Valid() && locks == [] && ready.Valid()
      ensures forall l: Lock {:trigger l in old(locks)} :: l in old(locks) ==>
        !l.owned && l.cnt == 0 && l.next == null && l.release.Valid() && l.release.list == []
      ensures ready.list == old(ready.list) + Flat(waits, |waits|)
    {
      FreeEach(lockList, locks, ready, waits, releases, threads);
      lockList := null;
      locks := [];
    }
  }

  // the loop of release_all_thread_locks
  method FreeEach(first: Lock?, ghost ls: seq<Lock>, ready: ThreadList, ghost waits: seq<seq<Thread>>,
                  ghost releases: set<ThreadList>, ghost threads: set<Thread>)
    requires Held(first, ls) && ready.Valid() && AllApart(waits, 0, ready.list) && |waits| == |ls|
    requires Among(waits, ready.list, threads) && Waited(ls, 0, waits, releases, threads) && OwnConditions(ls, ready)
    modifies ls, ready, threads, releases
    ensures ready.Valid() && ready.list == old(ready.list) + Flat(waits, |waits|)
    ensures Waited(ls, |ls|, waits, releases, threads)
    ensures forall i {:trigger ls[i]} :: 0 <= i < |ls| ==> !ls[i].owned && ls[i].cnt == 0 && ls[i].next == null
  {
    ghost var n := 0;
    var head := first;
    AppendNothing(ready.list);
    while head != null
      invariant n <= |ls| && head == LockAt(ls, n) && ready.Valid()
      invariant forall i {:trigger ls[i].next} :: n <= i < |ls| ==> ls[i].next == LockAt(ls, i + 1)
      invariant forall i {:trigger ls[i]} :: 0 <= i < n ==> !ls[i].owned && ls[i].cnt == 0 && ls[i].next == null
      invariant Waited(ls, n, waits, releases, threads)
      invariant ready.list == old(ready.list) + Flat(waits, n)
      invariant AllApart(waits, n, ready.list) && Among(waits, ready.list, threads)
      decreases |ls| - n
    {
      OnlyAt(ls, n);
      var next := head.next;
      OneMoreFlat(waits, n, old(ready.list), ready.list);
      FreeNext(ls, n, head, ready, waits, releases, threads);
      head := next;
      n := n + 1;
    }
  }

  ghost predicate Among(waits: seq<seq<Thread>>, ready: seq<Thread>, threads: set<Thread>) {
    && (forall t {:trigger t in ready} :: t in ready ==> t in threads)
    && (forall i, t {:trigger t in waits[i]} :: 0 <= i < |waits| && t in waits[i] ==> t in threads)
  }

  // The release conditions of the locks from n on have the waiters waits, the others none.
  ghost predicate Waited(ls: seq<Lock>, n: nat, waits: seq<seq<Thread>>, releases: set<ThreadList>,
                         threads: set<Thread>)
    requires |waits| == |ls|
    reads releases, threads
  {
    forall i {:trigger ls[i].release} :: 0 <= i < |ls| ==>
      && ls[i].release in releases && ls[i].release.list == (if i < n then [] else waits[i])
      && (forall t :: t in ls[i].release.list ==> t in threads)
      && ls[i].release.Valid()
  }

  ghost predicate OwnConditions(ls: seq<Lock>, ready: ThreadList) {
    && (forall i {:trigger ls[i].release} :: 0 <= i < |ls| ==> ls[i].release != ready)
    && (forall i, j {:trigger ls[i].release, ls[j].release} :: 0 <= i < j < |ls| ==> ls[i].release != ls[j].release)
  }

  method FreeNext(ghost ls: seq<Lock>, ghost n: nat, lock: Lock, ready: ThreadList, ghost waits: seq<seq<Thread>>,
                  ghost releases: set<ThreadList>, ghost threads: set<Thread>)
    requires |waits| == |ls| && n < |ls| && lock == ls[n] && ready.Valid() && AllApart(waits, n, ready.list)
    requires Waited(ls, n, waits, releases, threads) && OwnConditions(ls, ready) && Among(waits, ready.list, threads)
    modifies lock`next, lock`owned, lock`cnt, lock.release, ready, threads
    ensures !lock.owned && lock.cnt == 0 && lock.next == null
    ensures ready.Valid() && Waited(ls, n + 1, waits, releases, threads)
    ensures ready.list == old(ready.list) + waits[n] && Among(waits, ready.list, threads)
  {
    FreeLock(lock, ready, waits, n, threads);
    forall i {:trigger ls[i].release} | 0 <= i < |ls|
      ensures ls[i].release in releases && ls[i].release.list == (if i < n + 1 then [] else waits[i])
      ensures (forall t :: t in ls[i].release.list ==> t in threads) && ls[i].release.Valid()
    {
      if i > n {
        assert ls[n].release != ls[i].release && old(ls[i].release.Valid());
        assert Apart(waits[n], waits[i]) && Apart(waits[i], old(ready.list));
      } else if i < n {
        assert ls[i].release != ls[n].release && old(ls[i].release.Valid());
      }
    }
  }

  // one round of release_all_thread_locks
  method FreeLock(lock: Lock, ready: ThreadList, ghost waits: seq<seq<Thread>>, ghost n: nat,
                  ghost threads: set<Thread>)
    requires lock.release.Valid() && ready.Valid() && lock.release != ready
    requires n < |waits| && lock.release.list == waits[n] && Apart(waits[n], ready.list)
    requires Among(waits, ready.list, threads)
    modifies lock`next, lock`owned, lock`cnt, lock.release, ready, threads
    ensures !lock.owned && lock.cnt == 0 && lock.next == null
    ensures lock.release.Valid() && lock.release.list == [] && ready.Valid()
    ensures ready.list == old(ready.list) + waits[n] && Among(waits, ready.list, threads)
    ensures forall t :: t in threads && t !in waits[n] && t !in old(ready.list) ==> unchanged(t)
  {
    lock.next := null;
    lock.owned := false;
    lock.cnt := 0;
    assert forall t :: t in lock.release.list ==> t in waits[n] && t in threads;
    assert forall t :: t in ready.list ==> t in threads;
    Broadcast(lock.release, ready);
  }

  // The waiters have gone to the end of the ready list.
  ghost predicate Woken(wait: seq<Thread>, wait0: seq<Thread>, ready: seq<Thread>, ready0: seq<Thread>) {
    wait == [] && ready == ready0 + wait0
  }

  // The first n lists, one after the other.
  ghost function Flat(waits: seq<seq<Thread>>, n: nat): seq<Thread>
    requires n <= |waits|
  {
    if n == 0 then [] else Flat(waits, n - 1) + waits[n - 1]
  }

  // No thread is on two of the lists from n on, or on one of them and on the ready list.
  ghost predicate AllApart(waits: seq<seq<Thread>>, n: nat, ready: seq<Thread>) {
    && (forall i {:trigger waits[i]} :: n <= i < |waits| ==> Apart(waits[i], ready))
    && (forall i, j {:trigger waits[i], waits[j]} :: n <= i < j < |waits| ==> Apart(waits[i], waits[j]))
  }

  lemma OneMoreFlat(waits: seq<seq<Thread>>, n: nat, ready0: seq<Thread>, ready: seq<Thread>)
    requires n < |waits| && AllApart(waits, n, ready) && ready == ready0 + Flat(waits, n)
    ensures AllApart(waits, n + 1, ready + waits[n]) && ready + waits[n] == ready0 + Flat(waits, n + 1)
  {
    forall i {:trigger waits[i]} | n + 1 <= i < |waits| ensures Apart(waits[i], ready + waits[n]) {
      assert Apart(waits[n], waits[i]) && Apart(waits[i], ready);
    }
  }
}
