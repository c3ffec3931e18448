/**
 * The vector-clock operations of the FastTrack data-race detector. A clock
 * is a list of 32-bit entries, one per thread id; entry i of a fresh clock
 * is i << 24, the epoch layout that keeps the thread id in the top byte.
 * Clocks grow on demand, and a synchronisation joins two clocks entry by
 * entry. An epoch's thread id is its value shifted right by 24.
 */
module FastTrack {

  const TwoTo32: int := 0x1_0000_0000
  const TwoTo24: int := 0x100_0000

  type u32 = x: int | 0 <= x < TwoTo32

  /**
   * `(uint)i << 24`: the shift keeps only the low byte of `i`, so ids from
   * 256 on wrap around.
   */
  function Entry(i: nat): (r: u32)
    ensures r <= TwoTo32 - TwoTo24
    ensures ThreadOf(r) == i % 256 && (i < 256 ==> r == i * TwoTo24)
  {
    (i % 256) * TwoTo24
  }

  /** The thread id an epoch belongs to. */
  function ThreadOf(epoch: u32): (r: nat)
    ensures r < 256 && r * TwoTo24 <= epoch < (r + 1) * TwoTo24
  {
    epoch / TwoTo24
  }

  function Max(a: u32, b: u32): (r: u32)
    ensures r >= a && r >= b && (r == a || r == b)
  {
    if a >= b then a else b
  }

  function MaxInt(a: int, b: int): int
  {
    if a >= b then a else b
  }

  /**
   * `count` fresh entries for the ids from `from` on; the entry of thread
   * `own`, if among them, already counts one step.
   */
  function Fresh(from: nat, count: nat, own: int): (r: seq<u32>)
    ensures |r| == count
    ensures forall j :: 0 <= j < count ==> r[j] == FreshEntry(from + j, own)
    decreases count
  {
    if count == 0 then [] else [FreshEntry(from, own)] + Fresh(from + 1, count - 1, own)
  }

  lemma FreshSnoc(from: nat, count: nat, own: int)
    ensures Fresh(from, count + 1, own) == Fresh(from, count, own) + [FreshEntry(from + count, own)]
  {
    var longer := Fresh(from, count + 1, own);
    var snoc := Fresh(from, count, own) + [FreshEntry(from + count, own)];
    forall j | 0 <= j < count + 1
      ensures longer[j] == snoc[j]
    {
      if j < count {
        assert snoc[j] == Fresh(from, count, own)[j];
      }
    }
  }

  function FreshEntry(i: nat, own: int): (r: u32)
    ensures r == Entry(i) + if i == own then 1 else 0
  {
    Entry(i) + if i == own then 1 else 0
  }

  /** A clock grown to at least `size` entries with fresh entries. */
  function Extended(clock: seq<u32>, size: int): (r: seq<u32>)
    ensures |r| == MaxInt(|clock|, size)
    ensures r[..|clock|] == clock
    ensures forall i :: |clock| <= i < |r| ==> r[i] == Entry(i)
  {
    clock + Fresh(|clock|, MaxInt(|clock|, size) - |clock|, -1)
  }

  /** Entry-wise maximum of two clocks of one size. */
  function PointwiseMax(a: seq<u32>, b: seq<u32>): (r: seq<u32>)
    requires |a| == |b|
    ensures |r| == |a| && forall i :: 0 <= i < |r| ==> r[i] == Max(a[i], b[i])
  {
    seq(|a|, i requires 0 <= i < |a| => Max(a[i], b[i]))
  }

  /** Every entry of `b` is at most the entry of `a` for the same thread. */
  predicate Covers(a: seq<u32>, b: seq<u32>)
  {
    |b| <= |a| && forall i :: 0 <= i < |b| ==> b[i] <= a[i]
  }

  /**
   * The entries Fork appends to a thread's clock up to `size`: fresh
   * entries, the thread's own one already counting its first step.
   */
  function Padded(clock: seq<u32>, threadId: nat, size: nat): (r: seq<u32>)
    ensures |r| == MaxInt(|clock|, size) && r[..|clock|] == clock
    ensures forall i :: |clock| <= i < |r| ==> r[i] == Entry(i) + if i == threadId then 1 else 0
  {
    clock + Fresh(|clock|, MaxInt(|clock|, size) - |clock|, threadId)
  }

  /** Growing a clock never lowers an entry it had, and growing it again changes nothing. */
  lemma ExtendedKeeps(clock: seq<u32>, size: int, more: int)
    requires more <= MaxInt(|clock|, size)
    ensures Covers(Extended(clock, size), clock)
    ensures Extended(Extended(clock, size), more) == Extended(clock, size)
  {
    var e := Extended(clock, size);
    assert Extended(e, more) == e + [];
    forall i | 0 <= i < |clock|
      ensures clock[i] <= e[i]
    {
      assert e[..|clock|][i] == e[i];
    }
  }

  /**
   * `target` with each entry it shares a position with in `source` raised
   * to the larger of the two; entries past the end of `source` stay.
   */
  function MaxPrefix(source: seq<u32>, target: seq<u32>): (r: seq<u32>)
    ensures |r| == |target|
    ensures forall k :: 0 <= k < |target| ==> r[k] == if k < |source| then Max(source[k], target[k]) else target[k]
  {
    seq(|target|, k requires 0 <= k < |target| => if k < |source| then Max(source[k], target[k]) else target[k])
  }

  /** The join of two clocks covers both. */
  lemma MaxCoversBoth(a: seq<u32>, b: seq<u32>)
    requires |a| == |b|
    ensures Covers(PointwiseMax(a, b), a) && Covers(PointwiseMax(a, b), b)
  {
  }

  /** The clock after Acquire or Join: the join of both clocks grown to a common size. */
  function Joined(threadClock: seq<u32>, lockClock: seq<u32>): (r: seq<u32>)
    ensures Covers(r, threadClock) && Covers(r, lockClock)
  {
    var n := MaxInt(|threadClock|, |lockClock|);
    ExtendedKeeps(threadClock, n, n);
    ExtendedKeeps(lockClock, n, n);
    MaxCoversBoth(Extended(threadClock, n), Extended(lockClock, n));
    CoversTrans(PointwiseMax(Extended(threadClock, n), Extended(lockClock, n)), Extended(threadClock, n), threadClock);
    CoversTrans(PointwiseMax(Extended(threadClock, n), Extended(lockClock, n)), Extended(lockClock, n), lockClock);
    PointwiseMax(Extended(threadClock, n), Extended(lockClock, n))
  }

  lemma CoversTrans(a: seq<u32>, b: seq<u32>, c: seq<u32>)
    requires Covers(a, b) && Covers(b, c)
    ensures Covers(a, c)
  {
  }

  /**
   * Release then Acquire orders the two threads: every entry the releasing
   * thread had is covered by the acquiring thread's new clock.
   */
  lemma ReleaseAcquireOrders(releaser: seq<u32>, lockClock: seq<u32>, acquirer: seq<u32>)
    ensures var released := Extended(releaser, MaxInt(|releaser|, |lockClock|));
      Covers(Joined(acquirer, released), releaser)
  {
    var released := Extended(releaser, MaxInt(|releaser|, |lockClock|));
    ExtendedKeeps(releaser, MaxInt(|releaser|, |lockClock|), 0);
    CoversTrans(Joined(acquirer, released), released, releaser);
  }

  /** ExtendVectorClockTo: appends fresh entries until the clock has `size` of them. */
  method ExtendVectorClockTo(clock: seq<u32>, size: int) returns (r: seq<u32>)
    ensures r == Extended(clock, size)
  {
    r := clock;
    if size - |clock| <= 0 {
      assert Extended(clock, size) == clock + [];
      return;
    }
    var i := |clock|;
    while i < size
      invariant |clock| <= i <= size && |r| == i
      invariant r == Extended(clock, i)
    {
      r := r + [Entry(i)];
      i := i + 1;
    }
  }

  /** NewVectorClock: appends the fresh entries 0 << 24, 1 << 24, ... for `size` threads. */
  method NewVectorClock(clock: seq<u32>, size: int) returns (r: seq<u32>)
    ensures |r| == |clock| + MaxInt(size, 0) && r[..|clock|] == clock
    ensures forall i :: 0 <= i < |r| - |clock| ==> r[|clock| + i] == Entry(i)
  {
    r := clock;
    var i := 0;
    while i < size
      invariant 0 <= i <= MaxInt(size, 0) && |r| == |clock| + i && r[..|clock|] == clock
      invariant forall k :: 0 <= k < i ==> r[|clock| + k] == Entry(k)
    {
      r := r + [Entry(i)];
      i := i + 1;
    }
  }

  class ThreadState {
    const threadId: nat
    var clock: seq<u32>
    var epoch: u32

    constructor (threadId: nat, clock: seq<u32>, epoch: u32)
      ensures this.threadId == threadId && this.clock == clock && this.epoch == epoch
    {
      this.threadId := threadId;
      this.clock := clock;
      this.epoch := epoch;
    }
  }

  class LockState {
    var clock: seq<u32>
    var taken: bool

    constructor (clock: seq<u32>)
      ensures this.clock == clock && !taken
    {
      this.clock := clock;
      taken := false;
    }
  }

  /** The last read and write epochs of a variable, and its read clock once reads are shared. */
  class VariableState {
    var read: u32
    var write: u32
    var clock: Option<seq<u32>>

    constructor (read: u32, write: u32)
      ensures this.read == read && this.write == write && clock.None?
    {
      this.read := read;
      this.write := write;
      clock := None;
    }
  }

  datatype Option<T> = None | Some(value: T)

  /** Acquire: the thread's clock becomes the join of its clock and the lock's, and the lock is taken. */
  method Acquire(thread: ThreadState, lock: LockState)
    modifies thread, lock
    ensures thread.clock == Joined(old(thread.clock), old(lock.clock))
    ensures lock.clock == Extended(old(lock.clock), MaxInt(|old(thread.clock)|, |old(lock.clock)|))
    ensures lock.taken && thread.epoch == old(thread.epoch)
  {
    var clockSize := MaxInt(|thread.clock|, |lock.clock|);
    thread.clock := ExtendVectorClockTo(thread.clock, clockSize);
    lock.clock := ExtendVectorClockTo(lock.clock, clockSize);
    ghost var t0 := thread.clock;
    var i := 0;
    while i < |lock.clock|
      invariant 0 <= i <= |lock.clock| == |t0| && |thread.clock| == |t0|
      invariant forall k :: 0 <= k < i ==> thread.clock[k] == Max(t0[k], lock.clock[k])
      invariant forall k :: i <= k < |t0| ==> thread.clock[k] == t0[k]
      invariant lock.clock == Extended(old(lock.clock), clockSize) && thread.epoch == old(thread.epoch)
    {
      thread.clock := thread.clock[i := Max(thread.clock[i], lock.clock[i])];
      i := i + 1;
    }
    lock.taken := true;
  }

  /** Release: the lock's clock becomes a copy of the thread's, and the lock is free. */
  method Release(thread: ThreadState, lock: LockState)
    modifies thread, lock
    ensures thread.clock == Extended(old(thread.clock), MaxInt(|old(thread.clock)|, |old(lock.clock)|))
    ensures lock.clock == thread.clock
    ensures !lock.taken && thread.epoch == old(thread.epoch)
  {
    var clockSize := MaxInt(|thread.clock|, |lock.clock|);
    thread.clock := ExtendVectorClockTo(thread.clock, clockSize);
    lock.clock := ExtendVectorClockTo(lock.clock, clockSize);
    var i := 0;
    while i < |lock.clock|
      invariant 0 <= i <= |lock.clock| == |thread.clock|
      invariant forall k :: 0 <= k < i ==> lock.clock[k] == thread.clock[k]
      invariant thread.clock == Extended(old(thread.clock), clockSize) && thread.epoch == old(thread.epoch)
    {
      lock.clock := lock.clock[i := thread.clock[i]];
      i := i + 1;
    }
    lock.taken := false;
  }

  predicate Distinct<T(==)>(s: seq<T>)
  {
    forall i, j :: 0 <= i < j < |s| ==> s[i] != s[j]
  }

  /**
   * Read: the same epoch returns at once; otherwise a write not ordered
   * before the reader is a race, and the read is recorded as exclusive or
   * shared.
   */
  method Read(variable: VariableState, thread: ThreadState, readSharedEpoch: u32) returns (valid: bool)
    requires variable.read != thread.epoch ==> ThreadOf(variable.write) < |thread.clock| && thread.threadId < |thread.clock|
    requires variable.read != thread.epoch && variable.read != readSharedEpoch ==> ThreadOf(variable.read) < |thread.clock|
    requires variable.read != thread.epoch && variable.read != readSharedEpoch && variable.clock.Some? ==>
      ThreadOf(variable.read) < |variable.clock.value| && thread.threadId < |variable.clock.value|
    modifies variable
    ensures old(variable.read) == thread.epoch ==> valid && unchanged(variable)
    ensures old(variable.read) != thread.epoch ==> (valid <==> old(variable.write) <= thread.clock[ThreadOf(old(variable.write))])
    ensures variable.write == old(variable.write)
    ensures old(variable.read) != thread.epoch && old(variable.read) == readSharedEpoch ==>
      variable.read == readSharedEpoch && variable.clock.Some? && thread.threadId < |variable.clock.value|
      && variable.clock.value[thread.threadId] == thread.epoch
    ensures old(variable.read) != thread.epoch && old(variable.read) == readSharedEpoch ==>
      variable.clock == Some(Extended(if old(variable.clock).Some? then old(variable.clock).value else [], |thread.clock|)
                             [thread.threadId := thread.epoch])
    ensures (old(variable.read) != thread.epoch && old(variable.read) != readSharedEpoch
      && old(variable.read) <= thread.clock[ThreadOf(old(variable.read))]) ==>
      variable.read == thread.epoch && variable.clock == old(variable.clock)
    ensures (old(variable.read) != thread.epoch && old(variable.read) != readSharedEpoch
      && old(variable.read) > thread.clock[ThreadOf(old(variable.read))]) ==>
      variable.read == readSharedEpoch && variable.clock.Some?
      && thread.threadId < |variable.clock.value| && variable.clock.value[thread.threadId] == thread.epoch
      && ThreadOf(old(variable.read)) < |variable.clock.value|
      && (ThreadOf(old(variable.read)) != thread.threadId ==> variable.clock.value[ThreadOf(old(variable.read))] == old(variable.read))
    ensures (old(variable.read) != thread.epoch && old(variable.read) != readSharedEpoch
      && old(variable.read) > thread.clock[ThreadOf(old(variable.read))]) ==>
      var base := if old(variable.clock).Some? then old(variable.clock).value else Extended([], |thread.clock| + 1);
      ThreadOf(old(variable.read)) < |base| && thread.threadId < |base|
      && variable.clock == Some(base[ThreadOf(old(variable.read)) := old(variable.read)][thread.threadId := thread.epoch])
  {
    if variable.read == thread.epoch {
      return true;
    }
    valid := true;
    if variable.write > thread.clock[ThreadOf(variable.write)] {
      valid := false;
    }
    if variable.read == readSharedEpoch {
      var c := ExtendVectorClockTo(if variable.clock.Some? then variable.clock.value else [], |thread.clock|);
      variable.clock := Some(c[thread.threadId := thread.epoch]);
    } else if variable.read <= thread.clock[ThreadOf(variable.read)] {
      variable.read := thread.epoch;
    } else {
      Share(variable, thread, readSharedEpoch);
    }
  }

  /** A read by a thread not ordered after the last reader: the variable's reads become shared. */
  method Share(variable: VariableState, thread: ThreadState, readSharedEpoch: u32)
    requires thread.threadId < |thread.clock| && ThreadOf(variable.read) < |thread.clock|
    requires variable.clock.Some? ==> ThreadOf(variable.read) < |variable.clock.value| && thread.threadId < |variable.clock.value|
    modifies variable
    ensures var base := if old(variable.clock).Some? then old(variable.clock).value else Extended([], |thread.clock| + 1);
      ThreadOf(old(variable.read)) < |base| && thread.threadId < |base|
      && variable.clock == Some(base[ThreadOf(old(variable.read)) := old(variable.read)][thread.threadId := thread.epoch])
    ensures variable.read == readSharedEpoch && variable.write == old(variable.write)
  {
    var c: seq<u32>;
    if variable.clock.None? {
      c := NewVectorClock([], |thread.clock| + 1);
      assert c == Extended([], |thread.clock| + 1);
    } else {
      c := variable.clock.value;
    }
    c := c[ThreadOf(variable.read) := variable.read];
    c := c[thread.threadId := thread.epoch];
    variable.clock := Some(c);
    variable.read := readSharedEpoch;
  }

  /** The state Fork, Join and Write share: the last forked thread's id and the live thread count. */
  class FastTrackPlugin {
    var lastThreadId: int
    var threadsCount: int
    const readSharedEpoch: u32

    constructor (readSharedEpoch: u32)
      ensures lastThreadId == 0 && threadsCount == 0 && this.readSharedEpoch == readSharedEpoch
    {
      lastThreadId := 0;
      threadsCount := 0;
      this.readSharedEpoch := readSharedEpoch;
    }

    /**
     * Write: the same epoch returns at once; otherwise an earlier write or
     * read not ordered before the writer is a race, and the write epoch
     * becomes the thread's.
     */
    method Write(variable: VariableState, thread: ThreadState) returns (valid: bool)
      requires variable.write != thread.epoch ==> ThreadOf(variable.write) < |thread.clock|
      requires variable.write != thread.epoch && variable.read != readSharedEpoch ==> ThreadOf(variable.read) < |thread.clock|
      requires variable.write != thread.epoch && variable.read == readSharedEpoch ==>
        variable.clock.Some? && MaxInt(0, Min(|variable.clock.value|, lastThreadId + 1)) <= |thread.clock|
      modifies variable
      ensures variable.read == old(variable.read) && variable.clock == old(variable.clock)
      ensures old(variable.write) == thread.epoch ==> valid && variable.write == old(variable.write)
      ensures old(variable.write) != thread.epoch ==> variable.write == thread.epoch
      ensures old(variable.write) != thread.epoch && variable.read != readSharedEpoch ==>
        (valid <==> old(variable.write) <= thread.clock[ThreadOf(old(variable.write))]
                    && variable.read <= thread.clock[ThreadOf(variable.read)])
      ensures old(variable.write) != thread.epoch && variable.read == readSharedEpoch ==>
        (valid <==> old(variable.write) <= thread.clock[ThreadOf(old(variable.write))]
                    && forall i :: 0 <= i < Min(|variable.clock.value|, lastThreadId + 1) ==> variable.clock.value[i] <= thread.clock[i])
    {
      if variable.write == thread.epoch {
        return true;
      }
      valid := true;
      if variable.write > thread.clock[ThreadOf(variable.write)] {
        valid := false;
      }
      if variable.read != readSharedEpoch {
        if variable.read > thread.clock[ThreadOf(variable.read)] {
          valid := false;
        }
      } else {
        var c := variable.clock.value;
        ghost var writeOk := valid;
        var i := 0;
        while i < Min(|c|, lastThreadId + 1)
          invariant 0 <= i <= MaxInt(0, Min(|c|, lastThreadId + 1))
          invariant valid <==> writeOk && forall k :: 0 <= k < i ==> c[k] <= thread.clock[k]
        {
          if c[i] > thread.clock[i] {
            valid := false;
          }
          i := i + 1;
        }
      }
      variable.write := thread.epoch;
    }

    /**
     * Fork: both clocks grow to cover the new thread's id, the forked
     * thread's clock takes the join, and every known thread's clock grows
     * with fresh entries. The join indexes the original clock by the forked
     * clock's positions, so a forked clock longer than the original's
     * throws part way, and the model stops there.
     */
    method Fork(original: ThreadState, forked: ThreadState, threads: seq<ThreadState>) returns (ok: bool)
      requires original != forked && Distinct(threads)
      modifies this, original, forked, set t | t in threads
      ensures threadsCount == old(threadsCount) + 1 && lastThreadId == forked.threadId
      ensures var n := forked.threadId + 1;
        var oc, fc := Extended(old(original.clock), n), Extended(old(forked.clock), n);
        && (ok <==> |fc| <= |oc|)
        && original.clock == oc
        && forked.clock == MaxPrefix(oc, fc)
      ensures ok ==> forall k :: 0 <= k < |forked.clock| ==> forked.clock[k] >= original.clock[k]
      ensures ok ==> forall t :: t in threads && t != original && t != forked ==>
        t.clock == Padded(old(t.clock), t.threadId, forked.threadId + 1)
      ensures !ok ==> forall t :: t in threads && t != original && t != forked ==> t.clock == old(t.clock)
      ensures forall t :: t in threads ==> t.epoch == old(t.epoch)
      ensures original.epoch == old(original.epoch) && forked.epoch == old(forked.epoch)
    {
      threadsCount := threadsCount + 1;
      lastThreadId := forked.threadId;
      var clockSize := lastThreadId + 1;
      ok := ExtendAndJoin(original, forked, lastThreadId + 1);
      if !ok {
        return;
      }
      PadOthers(original, forked, threads, clockSize);
    }

    /** The padding loop of Fork, after the join: the two joined clocks already have `size` entries. */
    method PadOthers(original: ThreadState, forked: ThreadState, threads: seq<ThreadState>, size: nat)
      requires Distinct(threads) && |original.clock| >= size && |forked.clock| >= size
      modifies set t | t in threads
      ensures original.clock == old(original.clock) && forked.clock == old(forked.clock)
      ensures forall t :: t in threads && t != original && t != forked ==> t.clock == Padded(old(t.clock), t.threadId, size)
      ensures forall t :: t in threads ==> t.epoch == old(t.epoch)
      ensures original.epoch == old(original.epoch) && forked.epoch == old(forked.epoch)
    {
      PadAll(threads, size);
      PaddedIdle(old(original.clock), original.threadId, size);
      PaddedIdle(old(forked.clock), forked.threadId, size);
    }

    /** Both clocks grow to `size`, then the forked thread's clock takes the entry-wise maximum with the original's. */
    method ExtendAndJoin(original: ThreadState, forked: ThreadState, size: nat) returns (ok: bool)
      requires original != forked
      modifies original, forked
      ensures var oc, fc := Extended(old(original.clock), size), Extended(old(forked.clock), size);
        && (ok <==> |fc| <= |oc|)
        && original.clock == oc && |oc| >= size
        && forked.clock == MaxPrefix(oc, fc) && |fc| >= size
      ensures ok ==> forall k :: 0 <= k < |forked.clock| ==> forked.clock[k] >= original.clock[k]
      ensures original.epoch == old(original.epoch) && forked.epoch == old(forked.epoch)
    {
      original.clock := ExtendVectorClockTo(original.clock, size);
      forked.clock := ExtendVectorClockTo(forked.clock, size);
      ok := MaxPrefixInto(forked, original);
    }

    /**
     * Join: both clocks grow to the longer one's size, and the joining
     * thread's clock takes the join.
     */
    method Join(original: ThreadState, joined: ThreadState)
      requires original != joined
      modifies this, original, joined
      ensures threadsCount == old(threadsCount) - 1 && lastThreadId == old(lastThreadId)
      ensures original.clock == Joined(old(original.clock), old(joined.clock))
      ensures joined.clock == Extended(old(joined.clock), MaxInt(|old(original.clock)|, |old(joined.clock)|))
      ensures original.epoch == old(original.epoch) && joined.epoch == old(joined.epoch)
    {
      threadsCount := threadsCount - 1;
      var clockSize := MaxInt(|original.clock|, |joined.clock|);
      original.clock := ExtendVectorClockTo(original.clock, clockSize);
      joined.clock := ExtendVectorClockTo(joined.clock, clockSize);
      ghost var oc := original.clock;
      var i := 0;
      while i < |joined.clock|
        invariant 0 <= i <= |joined.clock| == |oc| == |original.clock|
        invariant forall k :: 0 <= k < i ==> original.clock[k] == Max(oc[k], joined.clock[k])
        invariant forall k :: i <= k < |oc| ==> original.clock[k] == oc[k]
        invariant joined.clock == Extended(old(joined.clock), clockSize)
        invariant original.epoch == old(original.epoch) && joined.epoch == old(joined.epoch)
        invariant threadsCount == old(threadsCount) - 1 && lastThreadId == old(lastThreadId)
      {
        original.clock := original.clock[i := Max(original.clock[i], joined.clock[i])];
        i := i + 1;
      }
    }
  }

  function Min(a: int, b: int): int
  {
    if a <= b then a else b
  }

  /**
   * The join loop of Fork: raises each entry of `target` to the entry of
   * `source` at the same position, and fails at the first position
   * `source` lacks.
   */
  method MaxPrefixInto(target: ThreadState, source: ThreadState) returns (ok: bool)
    requires target != source
    modifies target
    ensures ok <==> |old(target.clock)| <= |source.clock|
    ensures target.clock == MaxPrefix(source.clock, old(target.clock)) && target.epoch == old(target.epoch)
  {
    var i := 0;
    while i < |target.clock|
      invariant 0 <= i <= |target.clock| == |old(target.clock)| && i <= |source.clock|
      invariant forall k :: 0 <= k < i ==> target.clock[k] == Max(source.clock[k], old(target.clock)[k])
      invariant forall k :: i <= k < |target.clock| ==> target.clock[k] == old(target.clock)[k]
      invariant target.epoch == old(target.epoch)
    {
      if i >= |source.clock| {
        return false;
      }
      target.clock := target.clock[i := Max(source.clock[i], target.clock[i])];
      i := i + 1;
    }
    ok := true;
  }

  /**
   * The loop over every known thread in Fork: each clock shorter than
   * `size` gets the missing fresh entries.
   */
  method PadAll(threads: seq<ThreadState>, size: nat)
    requires Distinct(threads)
    modifies set t | t in threads
    ensures forall t :: t in threads ==> t.clock == Padded(old(t.clock), t.threadId, size) && t.epoch == old(t.epoch)
  {
    var j := 0;
    while j < |threads|
      invariant 0 <= j <= |threads|
      invariant forall k :: 0 <= k < |threads| ==> threads[k].epoch == old(threads[k].epoch)
      invariant forall k :: 0 <= k < j ==> threads[k].clock == Padded(old(threads[k].clock), threads[k].threadId, size)
      invariant forall k :: j <= k < |threads| ==> threads[k].clock == old(threads[k].clock)
    {
      PadClock(threads[j], size);
      j := j + 1;
    }
  }

  /** Padding a clock that already has `size` entries leaves it as it is. */
  lemma PaddedIdle(clock: seq<u32>, threadId: nat, size: nat)
    requires size <= |clock|
    ensures Padded(clock, threadId, size) == clock
  {
    assert Padded(clock, threadId, size) == clock + [];
  }

  /** Appends to one thread's clock the fresh entries it lacks below `size`. */
  method PadClock(thread: ThreadState, size: nat)
    modifies thread`clock
    ensures thread.clock == Padded(old(thread.clock), thread.threadId, size)
    ensures thread.epoch == old(thread.epoch)
  {
    if size <= |thread.clock| {
      PaddedIdle(thread.clock, thread.threadId, size);
      return;
    }
    var i := |thread.clock|;
    while i < size
      invariant |old(thread.clock)| <= i <= size && thread.epoch == old(thread.epoch)
      invariant thread.clock == old(thread.clock) + Fresh(|old(thread.clock)|, i - |old(thread.clock)|, thread.threadId)
    {
      FreshSnoc(|old(thread.clock)|, i - |old(thread.clock)|, thread.threadId);
      var epoch := Entry(i);
      if thread.threadId == i {
        epoch := epoch + 1;
      }
      thread.clock := thread.clock + [epoch];
      i := i + 1;
    }
  }
}
