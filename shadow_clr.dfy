/**
 * The analysis' shadow of one profiled runtime: the execution state the
 * runtime is in (running, suspending for a garbage collection or another
 * reason, resuming), whether a garbage collection is under way, and the
 * threads and modules the profiler has reported.
 *
 * Every runtime event first checks the contract the profiler's protocol
 * promises (a suspension starts only while executing, a collection runs
 * only while suspended for it); a violated contract aborts the event
 * before any field is assigned, so it is modelled as a rejected event that
 * changes nothing.
 */
module ShadowRuntime {
  import opened Models

  datatype RuntimeState = Initiated | Executing | Suspending | Suspended | Resuming | Terminated

  /** Why the runtime suspends, as the profiling interface reports it. */
  datatype SuspendReason =
    | SuspendOther
    | SuspendForGC
    | SuspendForAppDomainShutdown
    | SuspendForCodePitching
    | SuspendForShutdown
    | SuspendForInprocDebugger
    | SuspendForGCPrep
    | SuspendForReJIT
    | SuspendForProfiler

  /** The part of the shadow runtime the execution events read and write. */
  datatype Snapshot = Snapshot(state: RuntimeState, reason: Option<SuspendReason>, collecting: bool)

  /** The execution events of a runtime, one per Process_ handler that checks or changes the state. */
  datatype RuntimeEvent =
    | ProfilerInitialized
    | ProfilerDestroyed
    | SuspendStarted(suspendReason: SuspendReason)
    | SuspendFinished
    | ResumeStarted
    | ResumeFinished
    | GarbageCollectionStarted
    | GarbageCollectionFinished
    | SurvivingReferences
    | MovedReferences

  /** The snapshot of a freshly created shadow runtime. */
  const Initial := Snapshot(Initiated, None, false)

  /** Suspended for a garbage collection: what every collection event demands. */
  predicate InCollectionPause(s: Snapshot)
  {
    s.state == Suspended && s.reason == Some(SuspendForGC)
  }

  /** The snapshot after an event, or None when the event's contract does not hold. */
  function Next(s: Snapshot, e: RuntimeEvent): (r: Option<Snapshot>)
    ensures r.Some? && (e.SuspendStarted? || e.SuspendFinished? || e.ResumeStarted? || e.ResumeFinished?) ==> r.value.collecting == s.collecting
    ensures e.GarbageCollectionStarted? ==> (r.Some? <==> InCollectionPause(s) && !s.collecting)
    ensures e.GarbageCollectionFinished? ==> (r.Some? <==> InCollectionPause(s) && s.collecting)
  {
    match e
    case ProfilerInitialized => Some(s.(state := Executing))
    case ProfilerDestroyed => Some(s.(state := Terminated))
    case SuspendStarted(reason) =>
      if s.state == Executing && s.reason.None? then Some(s.(state := Suspending, reason := Some(reason))) else None
    case SuspendFinished =>
      if s.state == Suspending && s.reason.Some? then Some(s.(state := Suspended)) else None
    case ResumeStarted =>
      if s.state == Suspended && s.reason.Some? then Some(s.(state := Resuming)) else None
    case ResumeFinished =>
      if s.state == Resuming && s.reason.Some? then Some(s.(state := Executing, reason := None)) else None
    case GarbageCollectionStarted =>
      if InCollectionPause(s) && !s.collecting then Some(s.(collecting := true)) else None
    case GarbageCollectionFinished =>
      if InCollectionPause(s) && s.collecting then Some(s.(collecting := false)) else None
    case SurvivingReferences =>
      if InCollectionPause(s) && s.collecting then Some(s) else None
    case MovedReferences =>
      if InCollectionPause(s) && s.collecting then Some(s) else None
  }

  /** The snapshot after a sequence of events, or None if one of them is rejected. */
  function Run(s: Snapshot, events: seq<RuntimeEvent>): Option<Snapshot>
    decreases |events|
  {
    if events == [] then Some(s)
    else
      var next := Next(s, events[0]);
      if next.None? then None else Run(next.value, events[1..])
  }

  /** Running a sequence that starts with an accepted event continues from that event's snapshot. */
  lemma RunCons(s: Snapshot, e: RuntimeEvent, rest: seq<RuntimeEvent>)
    ensures Run(s, [e] + rest) == if Next(s, e).None? then None else Run(Next(s, e).value, rest)
  {
    assert ([e] + rest)[0] == e && ([e] + rest)[1..] == rest;
  }

  /** The suspension cycle: starting, finishing, resuming and finishing the resume restores the executing state. */
  lemma SuspendCycle(s: Snapshot, reason: SuspendReason)
    requires s.state == Executing && s.reason.None?
    ensures Run(s, [SuspendStarted(reason), SuspendFinished, ResumeStarted, ResumeFinished]) == Some(Snapshot(Executing, None, s.collecting))
  {
    var suspending := s.(state := Suspending, reason := Some(reason));
    var suspended := suspending.(state := Suspended);
    var resuming := suspended.(state := Resuming);
    RunCons(resuming, ResumeFinished, []);
    RunCons(suspended, ResumeStarted, [ResumeFinished]);
    RunCons(suspending, SuspendFinished, [ResumeStarted, ResumeFinished]);
    RunCons(s, SuspendStarted(reason), [SuspendFinished, ResumeStarted, ResumeFinished]);
  }

  /** The snapshot of a runtime suspended for a collection that has not started yet. */
  const PausedForCollection := Snapshot(Suspended, Some(SuspendForGC), false)

  /**
   * A whole collection inside a suspension for it: the start, the surviving
   * and moved references and the finish are all accepted and leave the
   * runtime as it was before the start.
   */
  lemma {:induction false} CollectionPause(rest: seq<RuntimeEvent>)
    ensures Run(PausedForCollection, [GarbageCollectionStarted, SurvivingReferences, MovedReferences, GarbageCollectionFinished] + rest)
      == Run(PausedForCollection, rest)
  {
    var collecting := PausedForCollection.(collecting := true);
    var finish := [GarbageCollectionFinished] + rest;
    RunCons(collecting, GarbageCollectionFinished, rest);
    var moved := [MovedReferences] + finish;
    RunCons(collecting, MovedReferences, finish);
    var surviving := [SurvivingReferences] + moved;
    RunCons(collecting, SurvivingReferences, moved);
    RunCons(PausedForCollection, GarbageCollectionStarted, surviving);
    assert [GarbageCollectionStarted] + surviving == [GarbageCollectionStarted, SurvivingReferences, MovedReferences, GarbageCollectionFinished] + rest;
  }

  /** A suspension for a collection with a collection inside it ends executing again, with no collection under way. */
  lemma CollectionCycle(s: Snapshot)
    requires s.state == Executing && s.reason.None? && !s.collecting
    ensures Run(s, [SuspendStarted(SuspendForGC), SuspendFinished, GarbageCollectionStarted, SurvivingReferences, MovedReferences,
      GarbageCollectionFinished, ResumeStarted, ResumeFinished]) == Some(Snapshot(Executing, None, false))
  {
    var resume := [ResumeStarted, ResumeFinished];
    SuspendCycle(s, SuspendForGC);
    CollectionPause(resume);
    var pause := [GarbageCollectionStarted, SurvivingReferences, MovedReferences, GarbageCollectionFinished] + resume;
    RunCons(PausedForCollection.(state := Suspending), SuspendFinished, pause);
    RunCons(s, SuspendStarted(SuspendForGC), [SuspendFinished] + pause);
    RunCons(PausedForCollection.(state := Suspending), SuspendFinished, resume);
    RunCons(s, SuspendStarted(SuspendForGC), [SuspendFinished] + resume);
    assert [SuspendStarted(SuspendForGC)] + ([SuspendFinished] + pause) == [SuspendStarted(SuspendForGC), SuspendFinished, GarbageCollectionStarted,
      SurvivingReferences, MovedReferences, GarbageCollectionFinished, ResumeStarted, ResumeFinished];
    assert [SuspendStarted(SuspendForGC)] + ([SuspendFinished] + resume) == [SuspendStarted(SuspendForGC), SuspendFinished, ResumeStarted, ResumeFinished];
  }

  /** A suspension for any reason other than a collection admits no collection. */
  lemma CollectionNeedsGcSuspension(s: Snapshot, reason: SuspendReason)
    requires s.state == Executing && s.reason.None? && reason != SuspendForGC
    ensures Run(s, [SuspendStarted(reason), SuspendFinished, GarbageCollectionStarted]).None?
  {
    var suspending := s.(state := Suspending, reason := Some(reason));
    var suspended := suspending.(state := Suspended);
    RunCons(suspended, GarbageCollectionStarted, []);
    RunCons(suspending, SuspendFinished, [GarbageCollectionStarted]);
    RunCons(s, SuspendStarted(reason), [SuspendFinished, GarbageCollectionStarted]);
  }

  /** The suspension reason is cleared by ResumeFinished and by no other event. */
  lemma ReasonClearedOnlyOnResume(s: Snapshot, e: RuntimeEvent)
    requires s.reason.Some? && Next(s, e).Some?
    ensures Next(s, e).value.reason.None? <==> e == ResumeFinished
    ensures e != ResumeFinished ==> Next(s, e).value.reason == s.reason
  {
  }

  /** A reason appears only through SuspendStarted, which needs an executing runtime with none. */
  lemma ReasonSetOnlyOnSuspend(s: Snapshot, e: RuntimeEvent)
    requires s.reason.None? && Next(s, e).Some? && Next(s, e).value.reason.Some?
    ensures e.SuspendStarted? && s.state == Executing && Next(s, e).value.reason == Some(e.suspendReason)
  {
  }

  /** The collection events of a sequence, in order. */
  function CollectionEvents(events: seq<RuntimeEvent>): (r: seq<RuntimeEvent>)
    ensures |r| <= |events|
    ensures forall i :: 0 <= i < |r| ==> r[i] == GarbageCollectionStarted || r[i] == GarbageCollectionFinished
    decreases |events|
  {
    if events == [] then []
    else if events[0] == GarbageCollectionStarted || events[0] == GarbageCollectionFinished then [events[0]] + CollectionEvents(events[1..])
    else CollectionEvents(events[1..])
  }

  /** Collection events that alternate start, finish, start, ..., beginning with a finish when one is under way. */
  predicate Alternating(gcs: seq<RuntimeEvent>, collecting: bool)
    decreases |gcs|
  {
    gcs == [] || (gcs[0] == (if collecting then GarbageCollectionFinished else GarbageCollectionStarted) && Alternating(gcs[1..], !collecting))
  }

  /**
   * Collections never nest: in every accepted run the collection events
   * alternate, and the collection flag at the end says whether the last
   * one was a start.
   */
  lemma {:induction false} CollectionsAlternate(s: Snapshot, events: seq<RuntimeEvent>)
    requires Run(s, events).Some?
    ensures Alternating(CollectionEvents(events), s.collecting)
    ensures Run(s, events).value.collecting == (if CollectionEvents(events) == [] then s.collecting else Last(CollectionEvents(events)) == GarbageCollectionStarted)
    decreases |events|
  {
    if events != [] {
      var t := Next(s, events[0]).value;
      CollectionsAlternate(t, events[1..]);
      var rest := CollectionEvents(events[1..]);
      if events[0] == GarbageCollectionStarted || events[0] == GarbageCollectionFinished {
        assert CollectionEvents(events) == [events[0]] + rest;
        assert ([events[0]] + rest)[1..] == rest;
        if rest != [] {
          assert Last([events[0]] + rest) == Last(rest);
        }
      } else {
        assert t.collecting == s.collecting;
      }
    }
  }

  function Last(gcs: seq<RuntimeEvent>): RuntimeEvent
    requires gcs != []
  {
    gcs[|gcs| - 1]
  }

  /**
   * A suspension is recorded exactly while the runtime is suspending,
   * suspended or resuming.
   */
  predicate Coherent(s: Snapshot)
  {
    s.reason.Some? <==> (s.state == Suspending || s.state == Suspended || s.state == Resuming)
  }

  /** The events of the suspension protocol: every event except the profiler's own start and end. */
  predicate ProtocolEvent(e: RuntimeEvent)
  {
    !e.ProfilerInitialized? && !e.ProfilerDestroyed?
  }

  /** Accepted protocol events keep the recorded suspension in step with the state. */
  lemma {:induction false} CoherentRun(s: Snapshot, events: seq<RuntimeEvent>)
    requires Coherent(s) && Run(s, events).Some?
    requires forall i :: 0 <= i < |events| ==> ProtocolEvent(events[i])
    ensures Coherent(Run(s, events).value)
    decreases |events|
  {
    if events != [] {
      var t := Next(s, events[0]).value;
      assert ProtocolEvent(events[0]);
      assert Coherent(t);
      assert forall i :: 0 <= i < |events[1..]| ==> events[1..][i] == events[i + 1];
      CoherentRun(t, events[1..]);
    }
  }

  /** The outcome of TryAdd on a concurrent dictionary: an existing key keeps its value. */
  function TryAdd<K, V>(m: map<K, V>, key: K, value: V): (r: map<K, V>)
    ensures key in r && r.Keys == m.Keys + {key}
    ensures forall k :: k in m ==> k in r && r[k] == m[k]
    ensures key !in m ==> r[key] == value
  {
    if key in m then m else m[key := value]
  }

  /** The outcome of TryRemove of a key-value pair: the entry goes only if the key maps to that very value. */
  function TryRemove<K, V(==)>(m: map<K, V>, key: K, value: V): (r: map<K, V>)
    ensures r.Keys == if key in m && m[key] == value then m.Keys - {key} else m.Keys
    ensures forall k :: k in r ==> r[k] == m[k]
  {
    if key in m && m[key] == value then map k | k in m && k != key :: m[k] else m
  }

  /** Adding an entry under a new key and removing it again gives back the dictionary. */
  lemma TryAddRemove<K, V>(m: map<K, V>, key: K, value: V)
    requires key !in m
    ensures TryRemove(TryAdd(m, key, value), key, value) == m
  {
    var r := TryRemove(TryAdd(m, key, value), key, value);
    assert r.Keys == m.Keys;
  }

  datatype ThreadState = Running | ThreadSuspended

  /** The shadow of one managed thread. */
  class ShadowThread {
    const id: nat
    var state: ThreadState

    constructor (id: nat)
      ensures this.id == id && state == Running
    {
      this.id := id;
      state := Running;
    }

    method EnterState(newState: ThreadState)
      modifies this
      ensures state == newState
    {
      state := newState;
    }
  }

  class ShadowCLR {
    const processId: nat
    var state: RuntimeState
    var suspensionReason: Option<SuspendReason>
    var ongoingGarbageCollection: bool
    /** The threads by their runtime thread id. */
    var threads: map<nat, ShadowThread>
    /** The modules by their module id, each with the identity of its loaded definition. */
    var modules: map<nat, nat>

    function Current(): Snapshot
      reads this
    {
      Snapshot(state, suspensionReason, ongoingGarbageCollection)
    }

    constructor (processId: nat)
      ensures this.processId == processId && Current() == Initial
      ensures threads == map[] && modules == map[]
    {
      this.processId := processId;
      state := Initiated;
      suspensionReason := None;
      ongoingGarbageCollection := false;
      threads := map[];
      modules := map[];
    }

    /** Applies an execution event; `ok` is false, and nothing changes, when its contract fails. */
    method Process(e: RuntimeEvent) returns (ok: bool)
      modifies this
      ensures ok <==> Next(old(Current()), e).Some?
      ensures Current() == if ok then Next(old(Current()), e).value else old(Current())
      ensures threads == old(threads) && modules == old(modules)
    {
      ok := true;
      match e {
        case ProfilerInitialized =>
          state := Executing;
        case ProfilerDestroyed =>
          state := Terminated;
        case SuspendStarted(reason) =>
          if state != Executing || suspensionReason.Some? {
            return false;
          }
          state := Suspending;
          suspensionReason := Some(reason);
        case SuspendFinished =>
          if state != Suspending || suspensionReason.None? {
            return false;
          }
          state := Suspended;
        case ResumeStarted =>
          if state != Suspended || suspensionReason.None? {
            return false;
          }
          state := Resuming;
        case ResumeFinished =>
          if state != Resuming || suspensionReason.None? {
            return false;
          }
          state := Executing;
          suspensionReason := None;
        case GarbageCollectionStarted =>
          if state != Suspended || suspensionReason != Some(SuspendForGC) || ongoingGarbageCollection {
            return false;
          }
          ongoingGarbageCollection := true;
        case GarbageCollectionFinished =>
          if state != Suspended || suspensionReason != Some(SuspendForGC) || !ongoingGarbageCollection {
            return false;
          }
          ongoingGarbageCollection := false;
        case SurvivingReferences =>
          if state != Suspended || suspensionReason != Some(SuspendForGC) || !ongoingGarbageCollection {
            return false;
          }
        case MovedReferences =>
          if state != Suspended || suspensionReason != Some(SuspendForGC) || !ongoingGarbageCollection {
            return false;
          }
      }
    }

    /** Records a new thread unless one with its id is already known. */
    method ThreadCreated(thread: ShadowThread)
      modifies this
      ensures threads == TryAdd(old(threads), thread.id, thread)
      ensures Current() == old(Current()) && modules == old(modules)
    {
      threads := TryAdd(threads, thread.id, thread);
    }

    /** Forgets a thread, only if its id still maps to this very thread. */
    method ThreadDestroyed(thread: ShadowThread)
      modifies this
      ensures threads == TryRemove(old(threads), thread.id, thread)
      ensures Current() == old(Current()) && modules == old(modules)
    {
      threads := TryRemove(threads, thread.id, thread);
    }

    /** A thread stopped by a runtime suspension. */
    method RuntimeThreadSuspended(thread: ShadowThread)
      modifies thread
      ensures thread.state == ThreadSuspended
    {
      thread.EnterState(ThreadSuspended);
    }

    /** A thread released by a runtime resume. */
    method RuntimeThreadResumed(thread: ShadowThread)
      modifies thread
      ensures thread.state == Running
    {
      thread.EnterState(Running);
    }

    /**
     * Records a loaded module; `loaded` is the definition the binder
     * produced, or None when it could not load the module's file.
     */
    method ModuleLoaded(moduleId: nat, loaded: Option<nat>)
      modifies this
      ensures modules == if loaded.Some? then TryAdd(old(modules), moduleId, loaded.value) else old(modules)
      ensures Current() == old(Current()) && threads == old(threads)
    {
      if loaded.None? {
        return;
      }
      modules := TryAdd(modules, moduleId, loaded.value);
    }
  }
}
