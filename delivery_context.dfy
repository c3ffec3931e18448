/**
 * The plugin host's holding area for recorded events of threads that must
 * not run yet: a thread waiting for a lock, or for a thread to start, is
 * blocked, and its events are queued until it is unblocked. Waiters on a
 * lock are released one at a time in arrival order; waiters on a thread
 * start are released all at once. A lock is named by the tracked object it
 * shadows.
 */
module DeliveryContext {
  import opened Models

  type P = ProcessThreadId
  type O = ProcessTrackedObjectId

  /** The KeyNotFoundException of an event queued for a thread that has no queue. */
  datatype DeliveryError = NoQueueForThread(id: P)

  datatype Delivery<E> = Delivery(
    undelivered: map<P, seq<E>>,
    lockQueues: map<O, seq<P>>,
    startQueues: map<O, seq<P>>,
    blocked: set<P>,
    unblocked: set<P>)

  function Elems<T>(s: seq<T>): set<T>
  {
    set x | x in s
  }

  /** Moving one element from a pending set to the end of a drained sequence keeps them a partition without repeats. */
  lemma DrainStep<T>(drained: seq<T>, pending: set<T>, x: T)
    requires x in pending && Elems(drained) !! pending && |Elems(drained)| == |drained|
    ensures Elems(drained + [x]) + (pending - {x}) == Elems(drained) + pending
    ensures Elems(drained + [x]) !! (pending - {x})
    ensures |Elems(drained + [x])| == |drained + [x]|
  {
    assert Elems(drained + [x]) == Elems(drained) + {x};
  }

  /** The queue kept for a key, or the empty queue when there is none yet. */
  function QueueOf<K>(queues: map<K, seq<P>>, key: K): seq<P>
  {
    if key in queues then queues[key] else []
  }

  /** IsBlockedEventsDeliveryForThread: blocked, or unblocked but not yet resumed. */
  predicate IsBlocked<E>(d: Delivery<E>, id: P)
  {
    id in d.blocked || id in d.unblocked
  }

  /** HasUndeliveredEvents. */
  predicate HasUndelivered<E>(d: Delivery<E>, id: P)
  {
    id in d.undelivered && |d.undelivered[id]| > 0
  }

  /** HasAnyUndeliveredEvents. */
  predicate HasAnyUndelivered<E>(d: Delivery<E>)
  {
    exists id :: id in d.undelivered && HasUndelivered(d, id)
  }

  /** A blocked thread gets an event queue if it has none, keeping the events it has. */
  function WithQueue<E>(undelivered: map<P, seq<E>>, id: P): (r: map<P, seq<E>>)
    ensures id in r && r.Keys == undelivered.Keys + {id}
    ensures forall t :: t in undelivered ==> r[t] == undelivered[t]
    ensures id !in undelivered ==> r[id] == []
  {
    if id in undelivered then undelivered else undelivered[id := []]
  }

  /**
   * BlockEventsDeliveryForThreadWaitingForObject: the thread is blocked and
   * joins the back of the lock's queue.
   */
  function BlockOnLock<E>(d: Delivery<E>, id: P, lockId: O): (r: Delivery<E>)
    ensures IsBlocked(r, id) && id in r.blocked && id in r.undelivered
    ensures r.blocked == d.blocked + {id} && r.unblocked == d.unblocked
    ensures lockId in r.lockQueues && r.lockQueues[lockId] == QueueOf(d.lockQueues, lockId) + [id]
    ensures forall k :: k != lockId ==> QueueOf(r.lockQueues, k) == QueueOf(d.lockQueues, k)
    ensures r.startQueues == d.startQueues
    ensures forall t :: t in d.undelivered ==> t in r.undelivered && r.undelivered[t] == d.undelivered[t]
  {
    Delivery(WithQueue(d.undelivered, id), d.lockQueues[lockId := QueueOf(d.lockQueues, lockId) + [id]],
      d.startQueues, d.blocked + {id}, d.unblocked)
  }

  /**
   * BlockEventsDeliveryForThreadWaitingForThreadStart: the thread is blocked
   * and joins the back of the thread object's queue.
   */
  function BlockOnStart<E>(d: Delivery<E>, id: P, threadObjectId: O): (r: Delivery<E>)
    ensures IsBlocked(r, id) && id in r.blocked && id in r.undelivered
    ensures r.blocked == d.blocked + {id} && r.unblocked == d.unblocked
    ensures threadObjectId in r.startQueues && r.startQueues[threadObjectId] == QueueOf(d.startQueues, threadObjectId) + [id]
    ensures forall k :: k != threadObjectId ==> QueueOf(r.startQueues, k) == QueueOf(d.startQueues, k)
    ensures r.lockQueues == d.lockQueues
    ensures forall t :: t in d.undelivered ==> t in r.undelivered && r.undelivered[t] == d.undelivered[t]
  {
    Delivery(WithQueue(d.undelivered, id), d.lockQueues,
      d.startQueues[threadObjectId := QueueOf(d.startQueues, threadObjectId) + [id]], d.blocked + {id}, d.unblocked)
  }

  /**
   * UnblockEventsDeliveryForThreadWaitingForObject: only the head of the
   * lock's queue moves from blocked to unblocked; with no waiter nothing
   * changes.
   */
  function UnblockOnLock<E>(d: Delivery<E>, lockId: O): (r: Delivery<E>)
    ensures |QueueOf(d.lockQueues, lockId)| == 0 ==> r == d
    ensures |QueueOf(d.lockQueues, lockId)| > 0 ==>
      var q := d.lockQueues[lockId];
      && r.lockQueues == d.lockQueues[lockId := q[1..]]
      && r.blocked == d.blocked - {q[0]} && r.unblocked == d.unblocked + {q[0]}
      && r.undelivered == d.undelivered && r.startQueues == d.startQueues
  {
    if lockId in d.lockQueues && |d.lockQueues[lockId]| > 0 then
      var q := d.lockQueues[lockId];
      d.(lockQueues := d.lockQueues[lockId := q[1..]], blocked := d.blocked - {q[0]}, unblocked := d.unblocked + {q[0]})
    else d
  }

  /**
   * UnblockEventsDeliveryForThreadWaitingForThreadStart: every waiter on the
   * thread object moves from blocked to unblocked and its queue is emptied.
   */
  function UnblockOnStart<E>(d: Delivery<E>, threadObjectId: O): (r: Delivery<E>)
    ensures threadObjectId !in d.startQueues ==> r == d
    ensures threadObjectId in d.startQueues ==>
      var q := d.startQueues[threadObjectId];
      && r.startQueues == d.startQueues[threadObjectId := []]
      && r.blocked == d.blocked - Elems(q) && r.unblocked == d.unblocked + Elems(q)
      && r.undelivered == d.undelivered && r.lockQueues == d.lockQueues
  {
    if threadObjectId in d.startQueues then
      var q := d.startQueues[threadObjectId];
      d.(startQueues := d.startQueues[threadObjectId := []], blocked := d.blocked - Elems(q), unblocked := d.unblocked + Elems(q))
    else d
  }

  /** A thread blocked on a lock nobody else waits for is the one the next unblock releases. */
  lemma BlockThenUnblockOnLock<E>(d: Delivery<E>, id: P, lockId: O)
    requires |QueueOf(d.lockQueues, lockId)| == 0
    ensures var r := UnblockOnLock(BlockOnLock(d, id, lockId), lockId);
      && id !in r.blocked && id in r.unblocked && IsBlocked(r, id)
      && QueueOf(r.lockQueues, lockId) == []
  {
  }

  /** Waiters on a lock are released in the order they arrived: the earlier of two goes first. */
  lemma LockQueueIsFifo<E>(d: Delivery<E>, first: P, second: P, lockId: O)
    requires |QueueOf(d.lockQueues, lockId)| == 0 && first != second
    ensures var r := UnblockOnLock(BlockOnLock(BlockOnLock(d, first, lockId), second, lockId), lockId);
      && first in r.unblocked && first !in r.blocked
      && second in r.blocked && QueueOf(r.lockQueues, lockId) == [second]
  {
    var d1 := BlockOnLock(d, first, lockId);
    var d2 := BlockOnLock(d1, second, lockId);
    assert d2.lockQueues[lockId] == [first, second];
  }

  /** Unblocking on a thread start leaves no thread of its queue blocked. */
  lemma UnblockOnStartReleasesAll<E>(d: Delivery<E>, threadObjectId: O)
    ensures var r := UnblockOnStart(d, threadObjectId);
      forall t :: t in QueueOf(d.startQueues, threadObjectId) ==> t !in r.blocked && t in r.unblocked
  {
  }

  lemma TakeOneMore(q: seq<P>, k: nat)
    requires k < |q|
    ensures Elems(q[..k + 1]) == Elems(q[..k]) + {q[k]} && q[k..][0] == q[k] && q[k..][1..] == q[k + 1..]
  {
    assert q[..k + 1] == q[..k] + [q[k]];
  }

  class RecordedEventsDeliveryContext<E> {
    var undelivered: map<P, seq<E>>
    var lockQueues: map<O, seq<P>>
    var startQueues: map<O, seq<P>>
    var blocked: set<P>
    var unblocked: set<P>

    function State(): Delivery<E>
      reads this
    {
      Delivery(undelivered, lockQueues, startQueues, blocked, unblocked)
    }

    constructor ()
      ensures State() == Delivery(map[], map[], map[], {}, {})
    {
      undelivered := map[];
      lockQueues := map[];
      startQueues := map[];
      blocked := {};
      unblocked := {};
    }

    method BlockEventsDeliveryForThreadWaitingForObject(id: P, lockId: O)
      modifies this
      ensures State() == BlockOnLock(old(State()), id, lockId)
    {
      if id !in undelivered {
        undelivered := undelivered[id := []];
      }
      blocked := blocked + {id};
      if lockId !in lockQueues {
        lockQueues := lockQueues[lockId := []];
      }
      lockQueues := lockQueues[lockId := lockQueues[lockId] + [id]];
    }

    method BlockEventsDeliveryForThreadWaitingForThreadStart(id: P, threadObjectId: O)
      modifies this
      ensures State() == BlockOnStart(old(State()), id, threadObjectId)
    {
      if id !in undelivered {
        undelivered := undelivered[id := []];
      }
      blocked := blocked + {id};
      if threadObjectId !in startQueues {
        startQueues := startQueues[threadObjectId := []];
      }
      startQueues := startQueues[threadObjectId := startQueues[threadObjectId] + [id]];
    }

    method UnblockEventsDeliveryForThreadWaitingForObject(lockId: O)
      modifies this
      ensures State() == UnblockOnLock(old(State()), lockId)
    {
      if lockId in lockQueues && |lockQueues[lockId]| > 0 {
        var first := lockQueues[lockId][0];
        lockQueues := lockQueues[lockId := lockQueues[lockId][1..]];
        blocked := blocked - {first};
        unblocked := unblocked + {first};
      }
    }

    /** Dequeues the waiters one by one, as the source's loop does. */
    method UnblockEventsDeliveryForThreadWaitingForThreadStart(threadObjectId: O)
      modifies this
      ensures State() == UnblockOnStart(old(State()), threadObjectId)
    {
      if threadObjectId in startQueues {
        ghost var q := startQueues[threadObjectId];
        ghost var k := 0;
        while |startQueues[threadObjectId]| > 0
          invariant k <= |q| && startQueues == old(startQueues)[threadObjectId := q[k..]]
          invariant blocked == old(blocked) - Elems(q[..k]) && unblocked == old(unblocked) + Elems(q[..k])
          invariant undelivered == old(undelivered) && lockQueues == old(lockQueues)
          decreases |q| - k
        {
          var current := startQueues[threadObjectId][0];
          startQueues := startQueues[threadObjectId := startQueues[threadObjectId][1..]];
          blocked := blocked - {current};
          unblocked := unblocked + {current};
          TakeOneMore(q, k);
          k := k + 1;
        }
        assert q[..k] == q;
      }
    }

    function HasAnyUndeliveredEvents(): bool
      reads this
    {
      HasAnyUndelivered(State())
    }

    function HasUndeliveredEvents(id: P): bool
      reads this
    {
      HasUndelivered(State(), id)
    }

    /** Drains the thread's event queue: the events come out in the order they were queued. */
    method ConsumeUndeliveredEvents(id: P) returns (events: seq<E>)
      modifies this
      ensures id !in old(undelivered) ==> events == [] && State() == old(State())
      ensures id in old(undelivered) ==> events == old(undelivered[id]) && undelivered == old(undelivered)[id := []]
      ensures lockQueues == old(lockQueues) && startQueues == old(startQueues)
      ensures blocked == old(blocked) && unblocked == old(unblocked)
    {
      events := [];
      if id !in undelivered {
        return;
      }
      while |undelivered[id]| > 0
        invariant id in undelivered && undelivered == old(undelivered)[id := undelivered[id]]
        invariant events + undelivered[id] == old(undelivered[id])
        invariant lockQueues == old(lockQueues) && startQueues == old(startQueues)
        invariant blocked == old(blocked) && unblocked == old(unblocked)
        decreases |undelivered[id]|
      {
        var item := undelivered[id][0];
        undelivered := undelivered[id := undelivered[id][1..]];
        events := events + [item];
      }
    }

    function HasUnblockedThreads(): (r: bool)
      reads this
      ensures r <==> exists t :: t in unblocked
    {
      |unblocked| > 0
    }

    function HasBlockedThreads(): (r: bool)
      reads this
      ensures r <==> exists t :: t in blocked
    {
      |blocked| > 0
    }

    /** Drains the unblocked set: each thread comes out once, in the set's own order. */
    method ConsumeUnblockedThreads() returns (threads: seq<P>)
      modifies this
      ensures Elems(threads) == old(unblocked) && |threads| == |old(unblocked)|
      ensures unblocked == {}
      ensures undelivered == old(undelivered) && lockQueues == old(lockQueues) && startQueues == old(startQueues)
      ensures blocked == old(blocked)
    {
      threads := [];
      while |unblocked| > 0
        invariant Elems(threads) + unblocked == old(unblocked) && Elems(threads) !! unblocked
        invariant |threads| + |unblocked| == |old(unblocked)|
        invariant |Elems(threads)| == |threads|
        invariant undelivered == old(undelivered) && lockQueues == old(lockQueues) && startQueues == old(startQueues)
        invariant blocked == old(blocked)
        decreases |unblocked|
      {
        var current :| current in unblocked;
        DrainStep(threads, unblocked, current);
        unblocked := unblocked - {current};
        threads := threads + [current];
      }
    }

    method EnqueueBlockedEventForThread(id: P, recordedEvent: E) returns (err: Option<DeliveryError>)
      modifies this
      ensures err.Some? <==> id !in old(undelivered)
      ensures err.Some? ==> err.value == NoQueueForThread(id) && State() == old(State())
      ensures err.None? ==> undelivered == old(undelivered)[id := old(undelivered[id]) + [recordedEvent]]
      ensures err.None? ==> lockQueues == old(lockQueues) && startQueues == old(startQueues)
      ensures err.None? ==> blocked == old(blocked) && unblocked == old(unblocked)
    {
      if id !in undelivered {
        return Some(NoQueueForThread(id));
      }
      undelivered := undelivered[id := undelivered[id] + [recordedEvent]];
      err := None;
    }

    function IsBlockedEventsDeliveryForThread(id: P): (r: bool)
      reads this
      ensures r <==> IsBlocked(State(), id)
    {
      id in blocked || id in unblocked
    }
  }
}
