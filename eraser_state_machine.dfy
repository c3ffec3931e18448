/**
 * The Eraser state machine: every shared variable has a shadow that moves
 * Virgin -> Exclusive -> Shared / SharedModified as threads access it, and
 * carries a candidate lock set, the locks held at every access since the
 * variable became shared. A race is reported when that candidate set
 * becomes empty.
 *
 * The transition is a pure choice among four handlers; the only effect is
 * the lock-set table's Intersect, which interns the new candidate set. The
 * pure part is `Transition`, which takes the intersection's index as an
 * argument, and `ComputeTransition` is the method that asks the table for
 * it exactly when a handler needs it.
 */
module EraserStateMachine {
  import opened Models
  import opened LockSetTable

  datatype ShadowVariableState = Virgin | Exclusive | Shared | SharedModified

  /** The shadow of a variable: its state, its owner while Exclusive, and its candidate lock set. */
  datatype ShadowVariable = ShadowVariable(state: ShadowVariableState, exclusiveThread: Option<ProcessThreadId>, lockSetIndex: LockSetIndex)

  datatype TransitionResult = TransitionResult(
    newShadow: ShadowVariable,
    isRaceDetected: bool,
    previousState: ShadowVariableState,
    newState: ShadowVariableState,
    resultingLockSet: LockSetIndex)

  function CreateExclusive(threadId: ProcessThreadId, lockSet: LockSetIndex): ShadowVariable
  {
    ShadowVariable(Exclusive, Some(threadId), lockSet)
  }

  function CreateShared(lockSet: LockSetIndex): ShadowVariable
  {
    ShadowVariable(Shared, None, lockSet)
  }

  function CreateSharedModified(lockSet: LockSetIndex): ShadowVariable
  {
    ShadowVariable(SharedModified, None, lockSet)
  }

  /** The position of a state in the order the machine moves through. */
  function Rank(s: ShadowVariableState): nat
  {
    match s
    case Virgin => 0
    case Exclusive => 1
    case Shared => 2
    case SharedModified => 3
  }

  /** The access is by the thread that owns the variable exclusively. */
  predicate SameThreadExclusive(threadId: ProcessThreadId, shadow: ShadowVariable)
  {
    shadow.state == Exclusive && shadow.exclusiveThread == Some(threadId)
  }

  /** The handlers that intersect the candidate set with the thread's lock set. */
  predicate NeedsIntersection(threadId: ProcessThreadId, shadow: ShadowVariable)
  {
    shadow.state != Virgin && !SameThreadExclusive(threadId, shadow)
  }

  function HandleVirginState(threadId: ProcessThreadId, threadLockSet: LockSetIndex): TransitionResult
  {
    TransitionResult(CreateExclusive(threadId, threadLockSet), false, Virgin, Exclusive, threadLockSet)
  }

  function HandleSameThreadExclusiveAccess(shadow: ShadowVariable): TransitionResult
  {
    TransitionResult(shadow, false, Exclusive, Exclusive, shadow.lockSetIndex)
  }

  /** `newLockSet` is the index that Intersect returned. */
  function HandleDifferentThreadExclusiveAccess(newLockSet: LockSetIndex, isWrite: bool): TransitionResult
  {
    var newState := if isWrite then SharedModified else Shared;
    var newShadow := if newState == SharedModified then CreateSharedModified(newLockSet) else CreateShared(newLockSet);
    TransitionResult(newShadow, newLockSet == Empty, Exclusive, newState, newLockSet)
  }

  /** `newLockSet` is the index that Intersect returned. */
  function HandleSharedStateAccess(shadow: ShadowVariable, newLockSet: LockSetIndex, isWrite: bool): TransitionResult
  {
    var newState := if isWrite then SharedModified else shadow.state;
    var newShadow := if newState == SharedModified then CreateSharedModified(newLockSet) else CreateShared(newLockSet);
    TransitionResult(newShadow, newLockSet == Empty, shadow.state, newState, newLockSet)
  }

  /**
   * The transition for one access, given the index `meet` of the
   * intersection of the candidate set with the thread's lock set (ignored
   * by the two handlers that do not intersect).
   */
  function Transition(threadId: ProcessThreadId, shadow: ShadowVariable, threadLockSet: LockSetIndex, isWrite: bool, meet: LockSetIndex): (r: TransitionResult)
    ensures r.previousState == shadow.state
    ensures r.newShadow.state == r.newState && r.newShadow.lockSetIndex == r.resultingLockSet
    ensures Rank(shadow.state) <= Rank(r.newState)
    ensures shadow.state == Virgin ==> r.newShadow == CreateExclusive(threadId, threadLockSet)
    ensures SameThreadExclusive(threadId, shadow) ==> r.newShadow == shadow
    ensures NeedsIntersection(threadId, shadow) ==> r.resultingLockSet == meet && r.newShadow.exclusiveThread == None
    ensures NeedsIntersection(threadId, shadow) && isWrite ==> r.newState == SharedModified
    ensures NeedsIntersection(threadId, shadow) && !isWrite ==> r.newState == if shadow.state == Exclusive then Shared else shadow.state
    ensures r.isRaceDetected <==> NeedsIntersection(threadId, shadow) && meet == Empty
  {
    match shadow.state
    case Virgin => HandleVirginState(threadId, threadLockSet)
    case Exclusive =>
      if shadow.exclusiveThread == Some(threadId) then HandleSameThreadExclusiveAccess(shadow)
      else HandleDifferentThreadExclusiveAccess(meet, isWrite)
    case Shared => HandleSharedStateAccess(shadow, meet, isWrite)
    case SharedModified => HandleSharedStateAccess(shadow, meet, isWrite)
  }

  /**
   * One access: asks the table for the intersection when the handler needs
   * it. The candidate set never grows, and a race is reported exactly when
   * the variable is shared and no lock of its candidate set is held.
   */
  method ComputeTransition(table: LockSetTable, threadId: ProcessThreadId, shadow: ShadowVariable, threadLockSet: LockSetIndex, isWrite: bool)
      returns (r: TransitionResult)
    requires table.Valid() && shadow.lockSetIndex < |table.lockSets| && threadLockSet < |table.lockSets|
    modifies table
    ensures table.Valid() && table.Extends(old(table.lockSets))
    ensures !NeedsIntersection(threadId, shadow) ==> table.lockSets == old(table.lockSets)
    ensures r == Transition(threadId, shadow, threadLockSet, isWrite, r.resultingLockSet)
    ensures r.resultingLockSet < |table.lockSets|
    ensures NeedsIntersection(threadId, shadow) ==>
      Elems(table.lockSets[r.resultingLockSet]) == Elems(table.lockSets[shadow.lockSetIndex]) * Elems(table.lockSets[threadLockSet])
    ensures shadow.state != Virgin ==> Elems(table.lockSets[r.resultingLockSet]) <= Elems(table.lockSets[shadow.lockSetIndex])
    ensures r.isRaceDetected <==>
      NeedsIntersection(threadId, shadow) && Elems(table.lockSets[shadow.lockSetIndex]) * Elems(table.lockSets[threadLockSet]) == {}
  {
    if !NeedsIntersection(threadId, shadow) {
      r := Transition(threadId, shadow, threadLockSet, isWrite, Empty);
      return;
    }
    ghost var before := table.lockSets;
    var newLockSet := table.Intersect(shadow.lockSetIndex, threadLockSet);
    assert table.lockSets[..|before|] == before;
    assert table.lockSets[shadow.lockSetIndex] == before[shadow.lockSetIndex];
    assert table.lockSets[threadLockSet] == before[threadLockSet];
    r := Transition(threadId, shadow, threadLockSet, isWrite, newLockSet);
    table.EmptyOnlyAtZero(newLockSet);
    EmptyElems(table.lockSets[newLockSet]);
  }

  /** A set with no locks is the empty sequence. */
  lemma EmptyElems(s: seq<LockId>)
    ensures Elems(s) == {} <==> s == []
  {
    if s != [] {
      assert s[0] in Elems(s);
    }
  }

  /** One access to a variable, with the index Intersect gives for it. */
  datatype Access = Access(threadId: ProcessThreadId, threadLockSet: LockSetIndex, isWrite: bool, meet: LockSetIndex)

  /** The shadow after a run of accesses. */
  function Run(shadow: ShadowVariable, accesses: seq<Access>): ShadowVariable
    decreases |accesses|
  {
    if accesses == [] then shadow
    else
      var a := accesses[0];
      Run(Transition(a.threadId, shadow, a.threadLockSet, a.isWrite, a.meet).newShadow, accesses[1..])
  }

  /** Some access of the run reports a race. */
  predicate RunRaces(shadow: ShadowVariable, accesses: seq<Access>)
    decreases |accesses|
  {
    if accesses == [] then false
    else
      var a := accesses[0];
      var t := Transition(a.threadId, shadow, a.threadLockSet, a.isWrite, a.meet);
      t.isRaceDetected || RunRaces(t.newShadow, accesses[1..])
  }

  /**
   * A variable only one thread touches never races, whatever locks it holds:
   * from Virgin, or owned by that thread, it stays Exclusive to it.
   */
  lemma {:induction false} SingleThreadNeverRaces(threadId: ProcessThreadId, shadow: ShadowVariable, accesses: seq<Access>)
    requires shadow.state == Virgin || SameThreadExclusive(threadId, shadow)
    requires forall k :: 0 <= k < |accesses| ==> accesses[k].threadId == threadId
    ensures !RunRaces(shadow, accesses)
    ensures accesses != [] ==> SameThreadExclusive(threadId, Run(shadow, accesses))
    decreases |accesses|
  {
    if accesses != [] {
      var a := accesses[0];
      var t := Transition(a.threadId, shadow, a.threadLockSet, a.isWrite, a.meet);
      assert SameThreadExclusive(threadId, t.newShadow);
      assert forall k :: 0 <= k < |accesses[1..]| ==> accesses[1..][k] == accesses[k + 1];
      SingleThreadNeverRaces(threadId, t.newShadow, accesses[1..]);
    }
  }

  /** Once a variable has been written while shared, it stays SharedModified. */
  lemma {:induction false} SharedModifiedIsSticky(shadow: ShadowVariable, accesses: seq<Access>)
    requires shadow.state == SharedModified
    ensures Run(shadow, accesses).state == SharedModified
    decreases |accesses|
  {
    if accesses != [] {
      var a := accesses[0];
      var t := Transition(a.threadId, shadow, a.threadLockSet, a.isWrite, a.meet);
      assert t.newShadow.state == SharedModified;
      SharedModifiedIsSticky(t.newShadow, accesses[1..]);
    }
  }
}
