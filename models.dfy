/**
 * Identities shared by the analysis plugins: a thread and a tracked object,
 * each named together with the process it belongs to.
 */
module Models {

  datatype Option<T> = None | Some(value: T)

  /** A thread of a process. */
  datatype ProcessThreadId = ProcessThreadId(processId: nat, threadId: nat)

  /** An object tracked by the profiler in a process. */
  datatype ProcessTrackedObjectId = ProcessTrackedObjectId(processId: nat, objectId: nat)
}
