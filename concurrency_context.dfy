/**
 * The execution-ordering plugin's bookkeeping of who waits for what: for
 * each thread the lock it is trying to take and the thread it is joining,
 * the locks it holds, and for each lock its owner. The taken-locks
 * dictionary is indexed without a check, so an operation that reaches it
 * for an unregistered thread throws before changing anything; the model
 * returns that as a `ThreadNotFound` error.
 */
module ConcurrencyContext {
  import opened Models

  type P = ProcessThreadId
  type L = ProcessTrackedObjectId

  /** The KeyNotFoundException thrown by the taken-locks dictionary. */
  datatype ContextError = ThreadNotFound(id: P)

  /** The four dictionaries; an absent waiting entry and a null one are different. */
  datatype Context = Context(
    waitingForLocks: map<P, Option<L>>,
    takenLocks: map<P, set<L>>,
    waitingForThreads: map<P, Option<P>>,
    lockOwners: map<L, P>)

  /** HasThread: the thread has a waiting-lock entry, null or not. */
  predicate HasThread(c: Context, id: P)
  {
    id in c.waitingForLocks
  }

  /** HasLock: whether the thread holds the lock, or the error for an unregistered thread. */
  function HasLock(c: Context, id: P, lockId: L): (r: Option<bool>)
    ensures r.None? <==> id !in c.takenLocks
    ensures r == Some(true) <==> id in c.takenLocks && lockId in c.takenLocks[id]
  {
    if id in c.takenLocks then Some(lockId in c.takenLocks[id]) else None
  }

  /** TryGetWaitingLock: succeeds exactly when the thread's entry is present and not null. */
  function TryGetWaitingLock(c: Context, id: P): (r: Option<L>)
    ensures r.Some? <==> id in c.waitingForLocks && c.waitingForLocks[id].Some?
    ensures r.Some? ==> c.waitingForLocks[id] == Some(r.value)
  {
    if id in c.waitingForLocks then c.waitingForLocks[id] else None
  }

  /** TryGetLockOwner. */
  function TryGetLockOwner(c: Context, lockId: L): (r: Option<P>)
    ensures r.Some? <==> lockId in c.lockOwners
    ensures r.Some? ==> r.value == c.lockOwners[lockId]
  {
    if lockId in c.lockOwners then Some(c.lockOwners[lockId]) else None
  }

  /** TryGetWaitingThread: succeeds exactly when the thread's entry is present and not null. */
  function TryGetWaitingThread(c: Context, id: P): (r: Option<P>)
    ensures r.Some? <==> id in c.waitingForThreads && c.waitingForThreads[id].Some?
    ensures r.Some? ==> c.waitingForThreads[id] == Some(r.value)
  {
    if id in c.waitingForThreads then c.waitingForThreads[id] else None
  }

  /** GetWaitingLock throws exactly where TryGetWaitingLock fails, and otherwise agrees with it. */
  function GetWaitingLock(c: Context, id: P): (r: Option<L>)
    ensures r == TryGetWaitingLock(c, id)
  {
    if id !in c.waitingForLocks || c.waitingForLocks[id].None? then None else c.waitingForLocks[id]
  }

  /** RecordLockAcquireCalled: the thread now waits for the lock. */
  function AcquireCalled(c: Context, id: P, lockId: L): (r: Context)
    ensures TryGetWaitingLock(r, id) == Some(lockId)
    ensures forall t :: t != id ==> TryGetWaitingLock(r, t) == TryGetWaitingLock(c, t)
    ensures r.takenLocks == c.takenLocks && r.waitingForThreads == c.waitingForThreads && r.lockOwners == c.lockOwners
  {
    c.(waitingForLocks := c.waitingForLocks[id := Some(lockId)])
  }

  /**
   * RecordLockAcquireReturned: a success adds the lock to the thread's taken
   * set and makes the thread its owner; either way the thread stops waiting.
   */
  function AcquireReturned(c: Context, id: P, lockId: L, success: bool): (r: Context)
    requires success ==> id in c.takenLocks
    ensures HasThread(r, id) && TryGetWaitingLock(r, id).None?
    ensures success ==> HasLock(r, id, lockId) == Some(true) && TryGetLockOwner(r, lockId) == Some(id)
    ensures success ==> r.takenLocks[id] == c.takenLocks[id] + {lockId}
    ensures !success ==> r.takenLocks == c.takenLocks && r.lockOwners == c.lockOwners
    ensures forall t :: t != id ==> TryGetWaitingLock(r, t) == TryGetWaitingLock(c, t) && HasLock(r, t, lockId) == HasLock(c, t, lockId)
    ensures forall l :: l != lockId ==> TryGetLockOwner(r, l) == TryGetLockOwner(c, l)
    ensures r.waitingForThreads == c.waitingForThreads
  {
    var c' := if success then
      c.(takenLocks := c.takenLocks[id := c.takenLocks[id] + {lockId}], lockOwners := c.lockOwners[lockId := id])
    else c;
    c'.(waitingForLocks := c'.waitingForLocks[id := None])
  }

  /**
   * RecordLockReleaseReturned and RecordObjectWaitCalled: the lock leaves
   * the thread's taken set and loses its owner, whoever that was.
   */
  function Released(c: Context, id: P, lockId: L): (r: Context)
    requires id in c.takenLocks
    ensures HasLock(r, id, lockId) == Some(false) && TryGetLockOwner(r, lockId).None?
    ensures r.takenLocks[id] == c.takenLocks[id] - {lockId}
    ensures forall t :: t != id ==> HasLock(r, t, lockId) == HasLock(c, t, lockId)
    ensures forall l :: l != lockId ==> TryGetLockOwner(r, l) == TryGetLockOwner(c, l)
    ensures r.waitingForLocks == c.waitingForLocks && r.waitingForThreads == c.waitingForThreads
  {
    c.(takenLocks := c.takenLocks[id := c.takenLocks[id] - {lockId}], lockOwners := c.lockOwners - {lockId})
  }

  /** RecordObjectWaitReturned: the thread takes the lock back and owns it again. */
  function Retaken(c: Context, id: P, lockId: L): (r: Context)
    requires id in c.takenLocks
    ensures HasLock(r, id, lockId) == Some(true) && TryGetLockOwner(r, lockId) == Some(id)
    ensures r.takenLocks[id] == c.takenLocks[id] + {lockId}
    ensures forall t :: t != id ==> HasLock(r, t, lockId) == HasLock(c, t, lockId)
    ensures forall l :: l != lockId ==> TryGetLockOwner(r, l) == TryGetLockOwner(c, l)
    ensures r.waitingForLocks == c.waitingForLocks && r.waitingForThreads == c.waitingForThreads
  {
    c.(takenLocks := c.takenLocks[id := c.takenLocks[id] + {lockId}], lockOwners := c.lockOwners[lockId := id])
  }

  /** RecordThreadCreated: the thread is registered, waiting for nothing and holding nothing. */
  function Created(c: Context, id: P): (r: Context)
    ensures HasThread(r, id) && TryGetWaitingLock(r, id).None? && TryGetWaitingThread(r, id).None?
    ensures forall l :: HasLock(r, id, l) == Some(false)
    ensures forall t :: t != id ==> TryGetWaitingLock(r, t) == TryGetWaitingLock(c, t)
    ensures r.lockOwners == c.lockOwners
  {
    Context(c.waitingForLocks[id := None], c.takenLocks[id := {}], c.waitingForThreads[id := None], c.lockOwners)
  }

  /** RecordThreadDestroyed: all three per-thread entries go; lock owners are left alone. */
  function Destroyed(c: Context, id: P): (r: Context)
    ensures !HasThread(r, id) && id !in r.takenLocks && id !in r.waitingForThreads
    ensures forall t :: t != id ==> (HasThread(r, t) <==> HasThread(c, t)) && TryGetWaitingLock(r, t) == TryGetWaitingLock(c, t)
    ensures forall t, l :: t != id ==> HasLock(r, t, l) == HasLock(c, t, l)
    ensures forall t :: t != id ==> TryGetWaitingThread(r, t) == TryGetWaitingThread(c, t)
    ensures r.lockOwners == c.lockOwners
  {
    Context(c.waitingForLocks - {id}, c.takenLocks - {id}, c.waitingForThreads - {id}, c.lockOwners)
  }

  /** RecordThreadJoinCalled and RecordThreadJoinReturned: the thread's joined thread becomes `joined`. */
  function Joining(c: Context, id: P, joined: Option<P>): (r: Context)
    ensures TryGetWaitingThread(r, id) == joined
    ensures forall t :: t != id ==> TryGetWaitingThread(r, t) == TryGetWaitingThread(c, t)
    ensures r.waitingForLocks == c.waitingForLocks && r.takenLocks == c.takenLocks && r.lockOwners == c.lockOwners
  {
    c.(waitingForThreads := c.waitingForThreads[id := joined])
  }

  /** A registered thread has an entry in all three per-thread dictionaries, and only registered threads do. */
  predicate Aligned(c: Context)
  {
    c.waitingForLocks.Keys == c.takenLocks.Keys == c.waitingForThreads.Keys
  }

  /** Recording events of registered threads keeps the three dictionaries aligned. */
  lemma AlignedPreserved(c: Context, id: P, other: P, lockId: L, success: bool)
    requires Aligned(c) && HasThread(c, id)
    ensures Aligned(AcquireCalled(c, id, lockId)) && Aligned(AcquireReturned(c, id, lockId, success))
    ensures Aligned(Released(c, id, lockId)) && Aligned(Retaken(c, id, lockId))
    ensures Aligned(Joining(c, id, Some(other))) && Aligned(Joining(c, id, None))
    ensures Aligned(Created(c, other)) && Aligned(Destroyed(c, other))
  {
  }

  /** A lock taken and then released leaves the lock bookkeeping as it was. */
  lemma AcquireReleaseRoundTrip(c: Context, id: P, lockId: L)
    requires id in c.takenLocks && lockId !in c.takenLocks[id] && lockId !in c.lockOwners
    ensures var r := Released(AcquireReturned(c, id, lockId, true), id, lockId);
      r.takenLocks == c.takenLocks && r.lockOwners == c.lockOwners
  {
    var r := Released(AcquireReturned(c, id, lockId, true), id, lockId);
    assert r.takenLocks[id] == c.takenLocks[id];
    assert r.lockOwners.Keys == c.lockOwners.Keys;
  }

  /** Monitor.Wait gives the lock up and takes it back: a held, owned lock comes back unchanged. */
  lemma WaitRoundTrip(c: Context, id: P, lockId: L)
    requires id in c.takenLocks && lockId in c.takenLocks[id] && TryGetLockOwner(c, lockId) == Some(id)
    ensures Retaken(Released(c, id, lockId), id, lockId) == c
  {
    var r := Retaken(Released(c, id, lockId), id, lockId);
    assert r.takenLocks[id] == c.takenLocks[id];
    assert r.takenLocks == c.takenLocks;
    assert r.lockOwners == c.lockOwners;
  }


  class ConcurrencyContext {
    var waitingForLocks: map<P, Option<L>>
    var takenLocks: map<P, set<L>>
    var waitingForThreads: map<P, Option<P>>
    var lockOwners: map<L, P>

    function State(): Context
      reads this
    {
      Context(waitingForLocks, takenLocks, waitingForThreads, lockOwners)
    }

    constructor ()
      ensures State() == Context(map[], map[], map[], map[])
    {
      waitingForLocks := map[];
      takenLocks := map[];
      waitingForThreads := map[];
      lockOwners := map[];
    }

    method RecordLockAcquireCalled(id: P, lockId: L)
      modifies this
      ensures State() == AcquireCalled(old(State()), id, lockId)
    {
      waitingForLocks := waitingForLocks[id := Some(lockId)];
    }

    method RecordLockAcquireReturned(id: P, lockId: L, success: bool) returns (err: Option<ContextError>)
      modifies this
      ensures err.Some? <==> success && id !in old(takenLocks)
      ensures err.Some? ==> err.value == ThreadNotFound(id) && State() == old(State())
      ensures err.None? ==> State() == AcquireReturned(old(State()), id, lockId, success)
    {
      if success {
        if id !in takenLocks {
          return Some(ThreadNotFound(id));
        }
        takenLocks := takenLocks[id := takenLocks[id] + {lockId}];
        lockOwners := lockOwners[lockId := id];
      }
      waitingForLocks := waitingForLocks[id := None];
      err := None;
    }

    method RecordLockReleaseReturned(id: P, lockId: L) returns (err: Option<ContextError>)
      modifies this
      ensures err.Some? <==> id !in old(takenLocks)
      ensures err.Some? ==> err.value == ThreadNotFound(id) && State() == old(State())
      ensures err.None? ==> State() == Released(old(State()), id, lockId)
    {
      if id !in takenLocks {
        return Some(ThreadNotFound(id));
      }
      takenLocks := takenLocks[id := takenLocks[id] - {lockId}];
      lockOwners := lockOwners - {lockId};
      err := None;
    }

    method RecordObjectWaitCalled(id: P, lockId: L) returns (err: Option<ContextError>)
      modifies this
      ensures err.Some? <==> id !in old(takenLocks)
      ensures err.Some? ==> err.value == ThreadNotFound(id) && State() == old(State())
      ensures err.None? ==> State() == Released(old(State()), id, lockId)
    {
      if id !in takenLocks {
        return Some(ThreadNotFound(id));
      }
      takenLocks := takenLocks[id := takenLocks[id] - {lockId}];
      lockOwners := lockOwners - {lockId};
      err := None;
    }

    method RecordObjectWaitReturned(id: P, lockId: L) returns (err: Option<ContextError>)
      modifies this
      ensures err.Some? <==> id !in old(takenLocks)
      ensures err.Some? ==> err.value == ThreadNotFound(id) && State() == old(State())
      ensures err.None? ==> State() == Retaken(old(State()), id, lockId)
    {
      if id !in takenLocks {
        return Some(ThreadNotFound(id));
      }
      takenLocks := takenLocks[id := takenLocks[id] + {lockId}];
      lockOwners := lockOwners[lockId := id];
      err := None;
    }

    method RecordThreadCreated(id: P)
      modifies this
      ensures State() == Created(old(State()), id)
    {
      waitingForLocks := waitingForLocks[id := None];
      takenLocks := takenLocks[id := {}];
      waitingForThreads := waitingForThreads[id := None];
    }

    method RecordThreadDestroyed(id: P)
      modifies this
      ensures State() == Destroyed(old(State()), id)
    {
      waitingForLocks := waitingForLocks - {id};
      takenLocks := takenLocks - {id};
      waitingForThreads := waitingForThreads - {id};
    }

    method RecordThreadJoinCalled(id: P, processJoiningThreadId: P)
      modifies this
      ensures State() == Joining(old(State()), id, Some(processJoiningThreadId))
    {
      waitingForThreads := waitingForThreads[id := Some(processJoiningThreadId)];
    }

    method RecordThreadJoinReturned(id: P)
      modifies this
      ensures State() == Joining(old(State()), id, None)
    {
      waitingForThreads := waitingForThreads[id := None];
    }

    /** GetTakenLocks: the thread's taken set, or the error for an unregistered thread. */
    method GetTakenLocks(id: P) returns (locks: Option<set<L>>)
      ensures locks.Some? <==> id in takenLocks
      ensures locks.Some? ==> forall l :: l in locks.value <==> HasLock(State(), id, l) == Some(true)
    {
      locks := if id in takenLocks then Some(takenLocks[id]) else None;
    }
  }
}
