/**
 * The inter-process queue over shared memory: a header holding a read and a
 * write offset, followed by a ring of bytes. A message is stored as a frame,
 * its length as a 4-byte little-endian int followed by its bytes. Offsets
 * only grow; the byte at offset `p` lives at ring index `p % |ring|`.
 */
module InterProcessQueue {
  import opened Bytes

  /** int.MaxValue: the largest length of a span of bytes. */
  const IntMax := 0x7FFF_FFFF

  /** sizeof(int): the size of a frame's length prefix. */
  const PrefixSize := 4

  datatype EnqueueError = UnableToAcquireWriteLock | NotEnoughFreeMemory
  datatype DequeueError = UnableToAcquireReadLock | NothingToRead

  datatype Status<E> = Ok | Error(error: E)
  datatype Result<T, E> = Success(value: T) | Failure(error: E)

  /** The 32-bit two's-complement value of `v`: what C# `int` arithmetic keeps of it. */
  function Int32(v: int): (r: int)
    ensures -SignBound(4) <= r < SignBound(4)
  {
    ToSigned(ToUnsigned(v, 4), 4)
  }

  /** A message as the queue stores it: its length, then its bytes. */
  function Frame(data: seq<byte>): (r: seq<byte>)
    ensures |r| == PrefixSize + |data|
  {
    LE(|data|, PrefixSize) + data
  }

  /** The frames of the messages, one after the other. */
  function Stream(messages: seq<seq<byte>>): (r: seq<byte>)
    ensures r == [] <==> messages == []
  {
    if messages == [] then [] else Frame(messages[0]) + Stream(messages[1..])
  }

  lemma {:induction false} StreamSnoc(messages: seq<seq<byte>>, data: seq<byte>)
    ensures Stream(messages + [data]) == Stream(messages) + Frame(data)
    decreases |messages|
  {
    if messages == [] {
      assert Stream([data]) == Frame(data) + Stream([]);
    } else {
      assert (messages + [data])[1..] == messages[1..] + [data];
      StreamSnoc(messages[1..], data);
    }
  }

  /** Every message fits the int length a frame records. */
  predicate Fitting(messages: seq<seq<byte>>)
  {
    forall m :: m in messages ==> |m| <= IntMax
  }

  /**
   * Reading a frame's prefix as a signed little-endian int gives the length
   * of its message, and the bytes after the prefix are the message.
   */
  lemma FrameRoundTrip(data: seq<byte>)
    requires |data| <= IntMax
    ensures ToSigned(FromLE(Frame(data)[..PrefixSize]), PrefixSize) == |data|
    ensures Frame(data)[PrefixSize..] == data
  {
    assert Pow256(1) == 0x100 && Pow256(2) == 0x1_0000 && Pow256(3) == 0x100_0000;
    assert Pow256(4) == 0x1_0000_0000;
    assert Frame(data)[..PrefixSize] == LE(|data|, PrefixSize);
    LERoundTrip(|data|, PrefixSize);
  }

  /**
   * The check of HasEnoughSpace on values: `dataLength` more bytes fit in a
   * ring of `ringLength` bytes holding `unread` unread ones.
   */
  predicate Fits(unread: int, ringLength: int, dataLength: int)
  {
    if dataLength > ringLength then false else unread + dataLength <= ringLength
  }

  /** For a length that is not negative, the check says exactly that the bytes fit beside the unread ones. */
  lemma FitsExactly(unread: int, ringLength: int, dataLength: int)
    requires 0 <= unread && 0 <= dataLength
    ensures Fits(unread, ringLength, dataLength) <==> unread + dataLength <= ringLength
  {
  }

  /** Enqueue's admission as written: `4 + data.Length` is computed in 32-bit int arithmetic. */
  predicate AdmitsAsWritten(unread: int, ringLength: int, length: nat)
  {
    Fits(unread, ringLength, Int32(PrefixSize + length))
  }

  /** Enqueue's admission with the frame size computed without wrap-around, as the model's Enqueue does. */
  predicate Admits(unread: int, ringLength: int, length: nat)
  {
    Fits(unread, ringLength, PrefixSize + length)
  }

  /**
   * A message of int.MaxValue bytes is admitted as written by an empty ring
   * of 100 bytes: the frame size wraps to a negative int.
   */
  lemma AdmitsAsWrittenOverflow()
    ensures AdmitsAsWritten(0, 100, IntMax)
    ensures !Admits(0, 100, IntMax) && PrefixSize + IntMax > 100
  {
    assert Pow256(1) == 0x100 && Pow256(2) == 0x1_0000 && Pow256(3) == 0x100_0000;
    assert Pow256(4) == 0x1_0000_0000;
    ModOfDecomposition(PrefixSize + IntMax, Pow256(4), 0, PrefixSize + IntMax);
    assert Int32(PrefixSize + IntMax) == PrefixSize + IntMax - Pow256(4);
  }

  /** What Enqueue admits leaves room for the whole frame. */
  lemma AdmitsFrame(unread: nat, ringLength: int, length: nat)
    requires Admits(unread, ringLength, length)
    ensures unread + PrefixSize + length <= ringLength
  {
    FitsExactly(unread, ringLength, PrefixSize + length);
  }

  /** Shifting an offset by the ring's length lands on the same ring index. */
  lemma ModShift(p: int, n: int)
    requires n > 0
    ensures (p + n) % n == p % n
  {
    ModOfDecomposition(p + n, n, p / n + 1, p % n);
  }

  /** The ring holds `bytes` at the offsets from `from` on. */
  ghost predicate Holds(ring: seq<byte>, from: int, bytes: seq<byte>)
  {
    |ring| > 0 && forall p :: from <= p < from + |bytes| ==> ring[p % |ring|] == bytes[p - from]
  }

  /** The two rings agree at the offsets from `lo` up to `hi`. */
  ghost predicate Agree(a: seq<byte>, b: seq<byte>, lo: int, hi: int)
  {
    |a| == |b| > 0 && forall p :: lo <= p < hi ==> a[p % |a|] == b[p % |b|]
  }

  /**
   * Bytes held at offsets whose next lap the other ring agrees on are held
   * by the other ring too.
   */
  lemma HoldsNextLap(a: seq<byte>, b: seq<byte>, from: int, bytes: seq<byte>, lo: int, hi: int)
    requires Holds(a, from, bytes) && Agree(b, a, lo, hi)
    requires lo <= from + |a| && from + |bytes| + |a| <= hi
    ensures Holds(b, from, bytes)
  {
    forall p | from <= p < from + |bytes|
      ensures b[p % |b|] == bytes[p - from]
    {
      ModShift(p, |a|);
      assert b[(p + |a|) % |b|] == a[(p + |a|) % |a|];
    }
  }

  lemma HoldsAppend(ring: seq<byte>, from: int, a: seq<byte>, b: seq<byte>)
    requires Holds(ring, from, a) && Holds(ring, from + |a|, b)
    ensures Holds(ring, from, a + b)
  {
    forall p | from <= p < from + |a + b|
      ensures ring[p % |ring|] == (a + b)[p - from]
    {
      if p < from + |a| {
        assert ring[p % |ring|] == a[p - from];
      } else {
        assert ring[p % |ring|] == b[p - (from + |a|)];
      }
    }
  }

  lemma HoldsSplit(ring: seq<byte>, from: int, a: seq<byte>, b: seq<byte>)
    requires Holds(ring, from, a + b)
    ensures Holds(ring, from, a) && Holds(ring, from + |a|, b)
  {
    forall p | from <= p < from + |a|
      ensures ring[p % |ring|] == a[p - from]
    {
      assert ring[p % |ring|] == (a + b)[p - from];
    }
    forall p | from + |a| <= p < from + |a| + |b|
      ensures ring[p % |ring|] == b[p - (from + |a|)]
    {
      assert ring[p % |ring|] == (a + b)[p - from];
    }
  }

  /**
   * The two writes of Enqueue: the prefix at `w`, then the message after it,
   * leave the unread bytes from `r` in place and the frame after them.
   */
  lemma EnqueueWrites(s0: seq<byte>, s1: seq<byte>, s2: seq<byte>, r: int, w: int, unread: seq<byte>, data: seq<byte>)
    requires Holds(s0, r, unread) && w == r + |unread|
    requires |unread| + PrefixSize + |data| <= |s0|
    requires Holds(s1, w, LE(|data|, PrefixSize)) && Agree(s1, s0, w + PrefixSize, w + |s0|)
    requires Holds(s2, w + PrefixSize, data) && Agree(s2, s1, w + PrefixSize + |data|, w + PrefixSize + |s0|)
    ensures Holds(s2, r, unread + Frame(data))
  {
    HoldsNextLap(s0, s1, r, unread, w + PrefixSize, w + |s0|);
    HoldsNextLap(s1, s2, r, unread, w + PrefixSize + |data|, w + PrefixSize + |s0|);
    HoldsNextLap(s1, s2, w, LE(|data|, PrefixSize), w + PrefixSize + |data|, w + PrefixSize + |s0|);
    HoldsAppend(s2, w, LE(|data|, PrefixSize), data);
    HoldsAppend(s2, r, unread, Frame(data));
  }

  /** Bytes read back from where the ring holds a sequence are that sequence. */
  lemma ReadBack(ring: seq<byte>, from: int, bytes: seq<byte>, read: seq<byte>)
    requires Holds(ring, from, bytes) && |read| == |bytes|
    requires forall p :: from <= p < from + |read| ==> read[p - from] == ring[p % |ring|]
    ensures read == bytes
  {
    forall k | 0 <= k < |read|
      ensures read[k] == bytes[k]
    {
      assert read[(from + k) - from] == ring[(from + k) % |ring|];
    }
  }

  class MemoryMappedQueue {
    /** The capacity of the shared memory, header included. */
    const capacity: int
    /** The size of the header before the ring. */
    const headerSize: nat
    /** The ring after the header: capacity - headerSize bytes. */
    const ring: array<byte>
    var readOffset: int
    var writeOffset: int
    /** The messages enqueued and not yet dequeued, oldest first. */
    ghost var messages: seq<seq<byte>>

    /** The unread offsets hold exactly the frames of the pending messages. */
    ghost predicate Valid()
      reads this, ring
    {
      && ring.Length == capacity - headerSize >= PrefixSize + 1
      && 0 <= readOffset && Fitting(messages)
      && writeOffset - readOffset == |Stream(messages)| <= ring.Length
      && Holds(ring[..], readOffset, Stream(messages))
    }

    /** Maps the shared memory: the capacity has passed the size check, and the header starts zeroed. */
    constructor (capacity: int, headerSize: nat)
      requires capacity >= headerSize + PrefixSize + 1
      ensures Valid() && messages == []
      ensures this.capacity == capacity && this.headerSize == headerSize && fresh(ring)
      ensures readOffset == 0 && writeOffset == 0
    {
      this.capacity := capacity;
      this.headerSize := headerSize;
      ring := new byte[capacity - headerSize](_ => 0);
      readOffset, writeOffset := 0, 0;
      messages := [];
    }

    /** The free-space check of Enqueue, on the offsets in the header. */
    function HasEnoughSpace(dataLength: int): (r: bool)
      requires Valid()
      reads this, ring
      ensures dataLength >= 0 ==> (r <==> |Stream(messages)| + dataLength <= ring.Length)
      ensures dataLength < 0 ==> r
    {
      FitsExactly(writeOffset - readOffset, ring.Length, if dataLength >= 0 then dataLength else 0);
      Fits(writeOffset - readOffset, ring.Length, dataLength)
    }

    /**
     * Appends one message: with the write lock held and room for its frame,
     * writes the length prefix and the bytes and advances the write offset.
     */
    method Enqueue(data: seq<byte>, lockAcquired: bool) returns (status: Status<EnqueueError>)
      requires Valid() && |data| <= IntMax
      modifies this, ring
      ensures Valid() && readOffset == old(readOffset)
      ensures !lockAcquired ==> status == Error(UnableToAcquireWriteLock)
      ensures lockAcquired && |Stream(old(messages))| + PrefixSize + |data| > ring.Length ==> status == Error(NotEnoughFreeMemory)
      ensures status.Ok? <==> lockAcquired && |Stream(old(messages))| + PrefixSize + |data| <= ring.Length
      ensures status.Ok? ==> messages == old(messages) + [data] && writeOffset == old(writeOffset) + PrefixSize + |data|
      ensures status.Error? ==> messages == old(messages) && writeOffset == old(writeOffset) && ring[..] == old(ring[..])
    {
      if !lockAcquired {
        return Error(UnableToAcquireWriteLock);
      }
      if !HasEnoughSpace(PrefixSize + |data|) {
        return Error(NotEnoughFreeMemory);
      }
      var offset := writeOffset;
      var nextWriteOffset := offset + PrefixSize + |data|;
      var sizeBuffer := LE(|data|, PrefixSize);
      ghost var s0 := ring[..];
      WriteRing(sizeBuffer, offset);
      ghost var s1 := ring[..];
      WriteRing(data, offset + PrefixSize);
      EnqueueWrites(s0, s1, ring[..], readOffset, offset, Stream(messages), data);
      StreamSnoc(messages, data);
      writeOffset := nextWriteOffset;
      messages := messages + [data];
      status := Ok;
    }

    /**
     * Takes the oldest message: with the read lock held and something
     * unread, reads the length prefix, then that many bytes, and advances
     * the read offset past the frame.
     */
    method Dequeue(lockAcquired: bool) returns (result: Result<seq<byte>, DequeueError>)
      requires Valid()
      modifies this
      ensures Valid() && writeOffset == old(writeOffset)
      ensures !lockAcquired ==> result == Failure(UnableToAcquireReadLock)
      ensures lockAcquired && old(messages) == [] ==> result == Failure(NothingToRead)
      ensures lockAcquired && old(messages) != [] ==>
        && result == Success(old(messages)[0]) && messages == old(messages)[1..]
        && readOffset == old(readOffset) + PrefixSize + |old(messages)[0]|
      ensures result.Failure? ==> messages == old(messages) && readOffset == old(readOffset)
    {
      if !lockAcquired {
        return Failure(UnableToAcquireReadLock);
      }
      var offset := readOffset;
      if offset == writeOffset {
        return Failure(NothingToRead);
      }
      var message := messages[0];
      assert Stream(messages) == Frame(message) + Stream(messages[1..]);
      HoldsSplit(ring[..], offset, Frame(message), Stream(messages[1..]));
      assert Frame(message) == Frame(message)[..PrefixSize] + Frame(message)[PrefixSize..];
      HoldsSplit(ring[..], offset, Frame(message)[..PrefixSize], Frame(message)[PrefixSize..]);
      var sizeBuffer := ReadRing(offset, PrefixSize);
      ReadBack(ring[..], offset, Frame(message)[..PrefixSize], sizeBuffer);
      var dataSize := ToSigned(FromLE(sizeBuffer), PrefixSize);
      FrameRoundTrip(message);
      var data := ReadRing(offset + PrefixSize, dataSize);
      ReadBack(ring[..], offset + PrefixSize, message, data);
      readOffset := offset + PrefixSize + dataSize;
      messages := messages[1..];
      result := Success(data);
    }

    /** Writes `bytes` at the offsets from `offset` on, around the ring. */
    method WriteRing(bytes: seq<byte>, offset: int)
      requires ring.Length > 0 && |bytes| <= ring.Length
      modifies ring
      ensures Holds(ring[..], offset, bytes)
      ensures Agree(ring[..], old(ring[..]), offset + |bytes|, offset + ring.Length)
    {
      var i := 0;
      while i < |bytes|
        invariant 0 <= i <= |bytes|
        invariant Holds(ring[..], offset, bytes[..i])
        invariant Agree(ring[..], old(ring[..]), offset + i, offset + ring.Length)
      {
        ghost var before := ring[..];
        var index := (offset + i) % ring.Length;
        ring[index] := bytes[i];
        RingWriteStep(before, ring[..], offset, bytes, i, old(ring[..]));
        i := i + 1;
      }
      assert bytes[..i] == bytes;
    }

    /** Reads `count` bytes from the offsets from `offset` on, around the ring. */
    method ReadRing(offset: int, count: nat) returns (bytes: seq<byte>)
      requires ring.Length > 0
      ensures |bytes| == count
      ensures forall p :: offset <= p < offset + count ==> bytes[p - offset] == ring[p % ring.Length]
    {
      bytes := [];
      var i := 0;
      while i < count
        invariant 0 <= i <= count && |bytes| == i
        invariant forall p :: offset <= p < offset + i ==> bytes[p - offset] == ring[p % ring.Length]
      {
        bytes := bytes + [ring[(offset + i) % ring.Length]];
        i := i + 1;
      }
    }
  }

  /** Constructs the queue, refusing a capacity below the header, a length prefix and one byte. */
  method Open(capacity: int, headerSize: nat) returns (queue: Result<MemoryMappedQueue, ()>)
    ensures queue.Failure? <==> capacity < headerSize + PrefixSize + 1
    ensures queue.Success? ==> fresh(queue.value) && fresh(queue.value.ring) && queue.value.Valid() && queue.value.messages == []
  {
    var minimumViableSize := headerSize + PrefixSize + 1;
    if capacity < minimumViableSize {
      return Failure(());
    }
    var q := new MemoryMappedQueue(capacity, headerSize);
    queue := Success(q);
  }

  /** Writing byte `i` at its ring index extends what the ring holds and keeps the next lap. */
  lemma RingWriteStep(before: seq<byte>, after: seq<byte>, offset: int, bytes: seq<byte>, i: nat, original: seq<byte>)
    requires i < |bytes| <= |before| && |before| > 0
    requires after == before[(offset + i) % |before| := bytes[i]]
    requires Holds(before, offset, bytes[..i])
    requires Agree(before, original, offset + i, offset + |before|)
    ensures Holds(after, offset, bytes[..i + 1])
    ensures Agree(after, original, offset + i + 1, offset + |before|)
  {
    var n := |before|;
    var index := (offset + i) % n;
    forall p | offset <= p < offset + i + 1
      ensures after[p % n] == bytes[..i + 1][p - offset]
    {
      if p < offset + i {
        ModDistinct(p, offset + i, n);
        assert before[p % n] == bytes[..i][p - offset];
      }
    }
    forall p | offset + i + 1 <= p < offset + n
      ensures after[p % n] == original[p % n]
    {
      ModDistinct(offset + i, p, n);
    }
  }

  /** Offsets less than a lap apart lie at different ring indices. */
  lemma ModDistinct(a: int, b: int, n: int)
    requires n > 0 && a < b < a + n
    ensures a % n != b % n
  {
    if a % n == b % n {
      ModOfDecomposition(b - a, n, b / n - a / n, 0);
    }
  }
}
