/**
 * The analysis' shadow of a monitor lock: the thread that owns it and how
 * many times that thread has entered it. Every operation first checks that
 * the caller belongs to the lock's process and may take or give up the
 * lock; a failed check throws before anything changes, which the model
 * returns as an error.
 */
module ShadowLock {
  import opened Models

  datatype LockError =
    | InvalidProcess(processId: nat)
    | LockNotTaken(thread: ProcessThreadId)
    | LockReleasedByAnotherThread(thread: ProcessThreadId)
    | LockAlreadyAcquired(thread: ProcessThreadId)

  /** The mutable part of a shadow lock. */
  datatype LockState = LockState(owner: Option<ProcessThreadId>, locksCount: int)

  /** A lock nobody holds has no entries, and a held lock at least one. */
  predicate Consistent(s: LockState)
  {
    s.locksCount >= 0 && (s.owner.None? <==> s.locksCount == 0)
  }

  /** EnsureCorrectProcess. */
  function ProcessCheck(lockProcess: nat, processId: nat): (r: Option<LockError>)
    ensures r.None? <==> processId == lockProcess
    ensures r.Some? ==> r.value == InvalidProcess(processId)
  {
    if processId != lockProcess then Some(InvalidProcess(processId)) else None
  }

  /** EnsureCanAcquire: the right process, and the lock unowned or owned by the caller. */
  function AcquireCheck(lockProcess: nat, s: LockState, t: ProcessThreadId): (r: Option<LockError>)
    ensures r.None? <==> t.processId == lockProcess && (s.owner.None? || s.owner == Some(t))
    ensures t.processId != lockProcess ==> r == Some(InvalidProcess(t.processId))
    ensures t.processId == lockProcess && r.Some? ==> r == Some(LockAlreadyAcquired(t))
  {
    var p := ProcessCheck(lockProcess, t.processId);
    if p.Some? then p
    else if s.owner.Some? && t != s.owner.value then Some(LockAlreadyAcquired(t))
    else None
  }

  /** EnsureCanRelease: the right process, and the lock owned by the caller. */
  function ReleaseCheck(lockProcess: nat, s: LockState, t: ProcessThreadId): (r: Option<LockError>)
    ensures r.None? <==> t.processId == lockProcess && s.owner == Some(t)
    ensures t.processId != lockProcess ==> r == Some(InvalidProcess(t.processId))
    ensures t.processId == lockProcess && s.owner.None? ==> r == Some(LockNotTaken(t))
    ensures t.processId == lockProcess && s.owner.Some? && s.owner != Some(t) ==> r == Some(LockReleasedByAnotherThread(t))
  {
    var p := ProcessCheck(lockProcess, t.processId);
    if p.Some? then p
    else if s.owner.None? then Some(LockNotTaken(t))
    else if t != s.owner.value then Some(LockReleasedByAnotherThread(t))
    else None
  }

  /** The state after a permitted acquire of `count` entries. */
  function Acquired(s: LockState, t: ProcessThreadId, count: int): (r: LockState)
    ensures r.owner == Some(t) && r.locksCount == s.locksCount + count
    ensures Consistent(s) && count >= 1 ==> Consistent(r)
  {
    LockState(Some(t), s.locksCount + count)
  }

  /** The state after a permitted release of one entry. */
  function Released(s: LockState): (r: LockState)
    ensures r.locksCount == s.locksCount - 1
    ensures r.owner == if r.locksCount == 0 then None else s.owner
    ensures Consistent(s) && s.owner.Some? ==> Consistent(r)
  {
    var count := s.locksCount - 1;
    LockState(if count == 0 then None else s.owner, count)
  }

  /** The state after a permitted release of every entry. */
  function ReleasedAll(s: LockState): (r: LockState)
    ensures Consistent(r) && r.owner.None?
  {
    LockState(None, 0)
  }

  /**
   * Giving up all entries and taking them back restores the lock, as a
   * wait on a monitor does.
   */
  lemma ReleaseAllRoundTrip(lockProcess: nat, s: LockState, t: ProcessThreadId)
    requires Consistent(s) && ReleaseCheck(lockProcess, s, t).None?
    ensures AcquireCheck(lockProcess, ReleasedAll(s), t).None?
    ensures Acquired(ReleasedAll(s), t, s.locksCount) == s
  {
  }

  /** A thread of another process can neither take nor give up the lock. */
  lemma OtherProcessFails(lockProcess: nat, s: LockState, t: ProcessThreadId)
    requires t.processId != lockProcess
    ensures AcquireCheck(lockProcess, s, t) == Some(InvalidProcess(t.processId))
    ensures ReleaseCheck(lockProcess, s, t) == Some(InvalidProcess(t.processId))
  {
  }

  class ShadowLock {
    const processId: nat
    const lockObjectId: ProcessTrackedObjectId
    var owner: Option<ProcessThreadId>
    var locksCount: int

    function State(): LockState
      reads this
    {
      LockState(owner, locksCount)
    }

    /** A lock of the object's process, held by nobody. */
    constructor (processLockObjectId: ProcessTrackedObjectId)
      ensures processId == processLockObjectId.processId && lockObjectId == processLockObjectId
      ensures State() == LockState(None, 0)
    {
      processId := processLockObjectId.processId;
      lockObjectId := processLockObjectId;
      owner := None;
      locksCount := 0;
    }

    method Acquire(t: ProcessThreadId) returns (err: Option<LockError>)
      modifies this
      ensures err == AcquireCheck(processId, old(State()), t)
      ensures State() == if err.None? then Acquired(old(State()), t, 1) else old(State())
    {
      err := AcquireCheck(processId, State(), t);
      if err.Some? {
        return;
      }
      owner := Some(t);
      locksCount := locksCount + 1;
    }

    method AcquireMultiple(t: ProcessThreadId, count: int) returns (err: Option<LockError>)
      modifies this
      ensures err == AcquireCheck(processId, old(State()), t)
      ensures State() == if err.None? then Acquired(old(State()), t, count) else old(State())
    {
      err := AcquireCheck(processId, State(), t);
      if err.Some? {
        return;
      }
      owner := Some(t);
      locksCount := locksCount + count;
    }

    method Release(t: ProcessThreadId) returns (err: Option<LockError>)
      modifies this
      ensures err == ReleaseCheck(processId, old(State()), t)
      ensures State() == if err.None? then Released(old(State())) else old(State())
    {
      err := ReleaseCheck(processId, State(), t);
      if err.Some? {
        return;
      }
      locksCount := locksCount - 1;
      if locksCount == 0 {
        owner := None;
      }
    }

    /** Gives up every entry and returns how many there were. */
    method ReleaseAll(t: ProcessThreadId) returns (err: Option<LockError>, previousLocksCount: int)
      modifies this
      ensures err == ReleaseCheck(processId, old(State()), t)
      ensures err.None? ==> previousLocksCount == old(locksCount)
      ensures State() == if err.None? then ReleasedAll(old(State())) else old(State())
    {
      previousLocksCount := 0;
      err := ReleaseCheck(processId, State(), t);
      if err.Some? {
        return;
      }
      previousLocksCount := locksCount;
      locksCount := 0;
      owner := None;
    }
  }
}
