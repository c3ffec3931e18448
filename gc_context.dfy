/**
 * The profiler's record of one garbage collection. It starts from the heap
 * before the collection (object address to tracked object id), sorted by
 * address, and builds the heap after it from the runtime's surviving and
 * moved address ranges. Addresses are unbounded natural numbers here.
 */
module GcContext {

  datatype HeapEntry = HeapEntry(objectId: nat, trackedId: nat)

  /** A generation's address range as the runtime reports it. */
  datatype GenerationRange = GenerationRange(generation: nat, rangeStart: nat, rangeLength: nat)

  /** Entry `i` lies at a lower address than entry `j`. */
  predicate Ordered(heap: seq<HeapEntry>, i: nat, j: nat)
    requires i < |heap| && j < |heap|
  {
    heap[i].objectId < heap[j].objectId
  }

  /**
   * Addresses strictly ascending, so each address appears once. Stated
   * through Ordered, so a proof uses it for the pairs of entries it names.
   */
  predicate Sorted(heap: seq<HeapEntry>)
  {
    forall i: nat, j: nat :: i < j < |heap| ==> Ordered(heap, i, j)
  }

  lemma SortedTail(heap: seq<HeapEntry>)
    requires Sorted(heap) && heap != []
    ensures Sorted(heap[1..])
  {
    forall i: nat, j: nat | i < j < |heap| - 1
      ensures Ordered(heap[1..], i, j)
    {
      assert Ordered(heap, i + 1, j + 1);
    }
  }

  function KeysOf(heap: seq<HeapEntry>): set<nat>
  {
    set e | e in heap :: e.objectId
  }

  function IdsOf(heap: seq<HeapEntry>): set<nat>
  {
    set e | e in heap :: e.trackedId
  }

  /** Every entry agrees with the map, and the map has no key the entries lack. */
  predicate Represents(heap: seq<HeapEntry>, m: map<nat, nat>)
  {
    && KeysOf(heap) == m.Keys
    && forall e :: e in heap ==> e.objectId in m && m[e.objectId] == e.trackedId
  }

  /**
   * The insertion point of `x`: the number of entries below it, which for
   * a sorted heap is where the entries at or above `x` begin.
   */
  function Position(heap: seq<HeapEntry>, x: int): (r: nat)
    ensures r <= |heap|
  {
    if heap == [] || heap[0].objectId >= x then 0 else 1 + Position(heap[1..], x)
  }

  /** The insertion point splits the heap into the entries below `x` and those at or above it. */
  lemma {:induction false} PositionSplits(heap: seq<HeapEntry>, x: int)
    requires Sorted(heap)
    ensures forall i :: 0 <= i < Position(heap, x) ==> heap[i].objectId < x
    ensures forall i :: Position(heap, x) <= i < |heap| ==> heap[i].objectId >= x
  {
    if heap != [] {
      if heap[0].objectId >= x {
        forall i | 0 < i < |heap|
          ensures heap[i].objectId >= x
        {
          assert Ordered(heap, 0, i);
        }
      } else {
        SortedTail(heap);
        PositionSplits(heap[1..], x);
        forall i | 0 < i < |heap|
          ensures heap[i] == heap[1..][i - 1]
        {
        }
      }
    }
  }

  /** A position that splits the heap around `x` is the insertion point. */
  lemma PositionUnique(heap: seq<HeapEntry>, x: int, p: nat)
    requires Sorted(heap) && p <= |heap|
    requires forall i :: 0 <= i < p ==> heap[i].objectId < x
    requires forall i :: p <= i < |heap| ==> heap[i].objectId >= x
    ensures p == Position(heap, x)
  {
    var q := Position(heap, x);
    PositionSplits(heap, x);
    assert p < |heap| ==> heap[p].objectId >= x;
    assert q < |heap| ==> heap[q].objectId >= x;
  }

  /** The entries from index `lo` up to `hi`, none when `hi` is not above `lo`. */
  function Slice(heap: seq<HeapEntry>, lo: nat, hi: nat): seq<HeapEntry>
    requires lo <= |heap| && hi <= |heap|
  {
    if lo <= hi then heap[lo..hi] else []
  }

  /** The address `x` lies in [start, start + length - 1). */
  predicate InRange(x: int, start: int, length: int)
  {
    start <= x < start + length - 1
  }

  /** The entries a range [start, start + length - 1) selects, in address order. */
  function Segment(heap: seq<HeapEntry>, start: nat, length: nat): (r: seq<HeapEntry>)
    requires Sorted(heap)
    ensures forall i :: 0 <= i < |r| ==> start <= r[i].objectId
  {
    PositionSplits(heap, start);
    Slice(heap, Position(heap, start), Position(heap, start as int + length - 1))
  }

  lemma SegmentSlice(heap: seq<HeapEntry>, start: nat, length: nat)
    requires Sorted(heap)
    ensures Segment(heap, start, length) == Slice(heap, Position(heap, start), Position(heap, start as int + length - 1))
  {
  }

  /** An entry is in a segment exactly when its address lies in the range. */
  lemma SegmentMembers(heap: seq<HeapEntry>, start: nat, length: nat, e: HeapEntry)
    requires Sorted(heap)
    ensures e in Segment(heap, start, length) <==> e in heap && InRange(e.objectId, start, length)
  {
    var lo, hi := Position(heap, start), Position(heap, start as int + length - 1);
    PositionSplits(heap, start);
    PositionSplits(heap, start as int + length - 1);
    if e in heap && InRange(e.objectId, start, length) {
      var i :| 0 <= i < |heap| && heap[i] == e;
      assert lo <= i < hi;
      assert heap[lo..hi][i - lo] == e;
    }
  }

  /** The entries of all ranges, range by range. */
  function Kept(heap: seq<HeapEntry>, starts: seq<nat>, lengths: seq<nat>): seq<HeapEntry>
    requires Sorted(heap) && |starts| <= |lengths|
    decreases |starts|
  {
    if starts == [] then []
    else
      var n := |starts| - 1;
      Kept(heap, starts[..n], lengths) + Segment(heap, starts[n], lengths[n])
  }

  /** The address `x` lies in one of the ranges. */
  predicate InSomeRange(x: int, starts: seq<nat>, lengths: seq<nat>)
    requires |starts| <= |lengths|
  {
    exists i :: 0 <= i < |starts| && InRange(x, starts[i], lengths[i])
  }

  /** One range more: the address lies in one of the earlier ranges or in the last one. */
  lemma InSomeRangeSnoc(x: int, starts: seq<nat>, lengths: seq<nat>)
    requires 0 < |starts| <= |lengths|
    ensures InSomeRange(x, starts, lengths) <==>
      InSomeRange(x, starts[..|starts| - 1], lengths) || InRange(x, starts[|starts| - 1], lengths[|starts| - 1])
  {
    var n := |starts| - 1;
    if InSomeRange(x, starts, lengths) {
      var i :| 0 <= i < |starts| && InRange(x, starts[i], lengths[i]);
      if i < n {
        assert starts[..n][i] == starts[i];
      }
    }
    if InSomeRange(x, starts[..n], lengths) {
      var i :| 0 <= i < n && InRange(x, starts[..n][i], lengths[i]);
      assert starts[i] == starts[..n][i];
    }
  }

  /** An entry is kept exactly when its address lies in one of the ranges. */
  lemma {:induction false} KeptMembers(heap: seq<HeapEntry>, starts: seq<nat>, lengths: seq<nat>, e: HeapEntry)
    requires Sorted(heap) && |starts| <= |lengths|
    ensures e in Kept(heap, starts, lengths) <==> e in heap && InSomeRange(e.objectId, starts, lengths)
    decreases |starts|
  {
    if starts != [] {
      var n := |starts| - 1;
      KeptMembers(heap, starts[..n], lengths, e);
      SegmentMembers(heap, starts[n], lengths[n], e);
      InSomeRangeSnoc(e.objectId, starts, lengths);
      assert Kept(heap, starts, lengths) == Kept(heap, starts[..n], lengths) + Segment(heap, starts[n], lengths[n]);
    }
  }


  /**
   * The new address of `address` in a range moved from `oldStart` to
   * `newStart`: the same offset from the new start. Every entry a range
   * selects lies at or above its start; an address below it whose offset
   * would land below zero, where the runtime's unsigned arithmetic wraps,
   * is mapped to 0.
   */
  function Shifted(address: nat, oldStart: nat, newStart: nat): (r: nat)
    ensures oldStart <= address ==> r == newStart + (address - oldStart)
  {
    if newStart + address < oldStart then 0 else newStart + address - oldStart
  }

  /** Entries of one moved range at their new addresses: the offset and the tracked id stay. */
  function Relocated(entries: seq<HeapEntry>, oldStart: nat, newStart: nat): (r: seq<HeapEntry>)
    ensures |r| == |entries|
  {
    seq(|entries|, i requires 0 <= i < |entries| => HeapEntry(Shifted(entries[i].objectId, oldStart, newStart), entries[i].trackedId))
  }

  /** The entries of all moved ranges, range by range, at their new addresses. */
  function Moved(heap: seq<HeapEntry>, oldStarts: seq<nat>, newStarts: seq<nat>, lengths: seq<nat>): seq<HeapEntry>
    requires Sorted(heap) && |oldStarts| <= |newStarts| && |oldStarts| <= |lengths|
    decreases |oldStarts|
  {
    if oldStarts == [] then []
    else
      var n := |oldStarts| - 1;
      Moved(heap, oldStarts[..n], newStarts, lengths) + Relocated(Segment(heap, oldStarts[n], lengths[n]), oldStarts[n], newStarts[n])
  }

  /** Every moved entry comes from an entry of the heap in one of the old ranges, shifted with its range. */
  lemma {:induction false} MovedFrom(heap: seq<HeapEntry>, oldStarts: seq<nat>, newStarts: seq<nat>, lengths: seq<nat>, e: HeapEntry)
    requires Sorted(heap) && |oldStarts| <= |newStarts| && |oldStarts| <= |lengths|
    requires e in Moved(heap, oldStarts, newStarts, lengths)
    ensures exists i, d ::
      && 0 <= i < |oldStarts| && d in heap && d.trackedId == e.trackedId
      && InRange(d.objectId, oldStarts[i], lengths[i])
      && e.objectId == newStarts[i] + (d.objectId - oldStarts[i])
    decreases |oldStarts|
  {
    var n := |oldStarts| - 1;
    var seg := Segment(heap, oldStarts[n], lengths[n]);
    if e in Moved(heap, oldStarts[..n], newStarts, lengths) {
      MovedFrom(heap, oldStarts[..n], newStarts, lengths, e);
      var i, d :| 0 <= i < n && d in heap && d.trackedId == e.trackedId
        && InRange(d.objectId, oldStarts[..n][i], lengths[i])
        && e.objectId == newStarts[i] + (d.objectId - oldStarts[..n][i]);
      assert oldStarts[..n][i] == oldStarts[i];
    } else {
      var r := Relocated(seg, oldStarts[n], newStarts[n]);
      var k :| 0 <= k < |r| && r[k] == e;
      SegmentMembers(heap, oldStarts[n], lengths[n], seg[k]);
      assert n < |oldStarts| && seg[k] in heap && seg[k].trackedId == e.trackedId;
    }
  }

  /** A hash-map insert: an address already present keeps its tracked id. */
  function Insert(m: map<nat, nat>, e: HeapEntry): map<nat, nat>
  {
    if e.objectId in m then m else m[e.objectId := e.trackedId]
  }

  function InsertAll(m: map<nat, nat>, entries: seq<HeapEntry>): map<nat, nat>
    decreases |entries|
  {
    if entries == [] then m else Insert(InsertAll(m, entries[..|entries| - 1]), entries[|entries| - 1])
  }

  lemma {:induction false} InsertAllAppend(m: map<nat, nat>, a: seq<HeapEntry>, b: seq<HeapEntry>)
    ensures InsertAll(m, a + b) == InsertAll(InsertAll(m, a), b)
    decreases |b|
  {
    if b == [] {
      assert a + b == a;
    } else {
      var n := |b| - 1;
      assert (a + b)[..|a + b| - 1] == a + b[..n];
      InsertAllAppend(m, a, b[..n]);
    }
  }

  /** Entries with the same address carry the same tracked id. */
  predicate Consistent(entries: seq<HeapEntry>)
  {
    forall a, b :: a in entries && b in entries && a.objectId == b.objectId ==> a.trackedId == b.trackedId
  }

  /**
   * Inserting entries keeps every address already present with its tracked
   * id and adds exactly the entries' addresses.
   */
  lemma {:induction false} InsertAllKeeps(m: map<nat, nat>, entries: seq<HeapEntry>)
    ensures InsertAll(m, entries).Keys == m.Keys + KeysOf(entries)
    ensures forall k :: k in m ==> InsertAll(m, entries)[k] == m[k]
    decreases |entries|
  {
    if entries != [] {
      var n := |entries| - 1;
      InsertAllKeeps(m, entries[..n]);
      assert entries == entries[..n] + [entries[n]];
      KeysOfSnoc(entries[..n], entries[n]);
    }
  }

  /** Each address the entries add gets the tracked id of one of its entries. */
  lemma {:induction false} InsertAllFrom(m: map<nat, nat>, entries: seq<HeapEntry>)
    ensures forall k :: k in InsertAll(m, entries) && k !in m ==>
      exists e :: e in entries && e.objectId == k && e.trackedId == InsertAll(m, entries)[k]
    decreases |entries|
  {
    if entries != [] {
      var n := |entries| - 1;
      var before := InsertAll(m, entries[..n]);
      InsertAllFrom(m, entries[..n]);
      forall k | k in InsertAll(m, entries) && k !in m
        ensures exists e :: e in entries && e.objectId == k && e.trackedId == InsertAll(m, entries)[k]
      {
        if k in before {
          var e :| e in entries[..n] && e.objectId == k && e.trackedId == before[k];
          assert e in entries;
        } else {
          assert entries[n] in entries;
        }
      }
    }
  }

  /** When the entries agree about every address, each new address gets its entries' tracked id. */
  lemma InsertAllConsistent(m: map<nat, nat>, entries: seq<HeapEntry>)
    requires Consistent(entries)
    ensures forall e :: e in entries && e.objectId !in m ==>
      e.objectId in InsertAll(m, entries) && InsertAll(m, entries)[e.objectId] == e.trackedId
  {
    InsertAllKeeps(m, entries);
    InsertAllFrom(m, entries);
    forall e | e in entries && e.objectId !in m
      ensures e.objectId in InsertAll(m, entries) && InsertAll(m, entries)[e.objectId] == e.trackedId
    {
      assert e.objectId in KeysOf(entries);
    }
  }

  /** The entries of a sorted heap never disagree about an address. */
  lemma SortedConsistent(heap: seq<HeapEntry>, entries: seq<HeapEntry>)
    requires Sorted(heap) && forall e :: e in entries ==> e in heap
    ensures Consistent(entries)
  {
    forall a, b | a in entries && b in entries && a.objectId == b.objectId
      ensures a.trackedId == b.trackedId
    {
      var i :| 0 <= i < |heap| && heap[i] == a;
      var j :| 0 <= j < |heap| && heap[j] == b;
      assert i < j ==> Ordered(heap, i, j);
      assert j < i ==> Ordered(heap, j, i);
    }
  }

  /**
   * After the surviving ranges are processed, an old object in one of
   * them that was not yet placed sits at its old address with its tracked
   * id, and every address placed was either placed before or holds such an
   * object.
   */
  lemma Survivors(heap: seq<HeapEntry>, starts: seq<nat>, lengths: seq<nat>, m: map<nat, nat>)
    requires Sorted(heap) && |starts| <= |lengths|
    ensures forall d ::
      (d in heap && d.objectId !in m && exists i :: 0 <= i < |starts| && InRange(d.objectId, starts[i], lengths[i])) ==>
      d.objectId in InsertAll(m, Kept(heap, starts, lengths)) && InsertAll(m, Kept(heap, starts, lengths))[d.objectId] == d.trackedId
    ensures forall k :: k in InsertAll(m, Kept(heap, starts, lengths)) ==> k in m || k in KeysOf(heap)
  {
    var kept := Kept(heap, starts, lengths);
    forall e | e in kept
      ensures e in heap
    {
      KeptMembers(heap, starts, lengths, e);
    }
    SortedConsistent(heap, kept);
    InsertAllKeeps(m, kept);
    InsertAllConsistent(m, kept);
    forall d | d in heap && d.objectId !in m
      && (exists i :: 0 <= i < |starts| && InRange(d.objectId, starts[i], lengths[i]))
      ensures d.objectId in InsertAll(m, kept) && InsertAll(m, kept)[d.objectId] == d.trackedId
    {
      KeptMembers(heap, starts, lengths, d);
    }
  }

  /**
   * After the moved ranges are processed, every address placed that was not
   * placed before holds the tracked id of an old object of one of the old
   * ranges, at that range's new start plus the object's old offset.
   */
  lemma MovedObjects(heap: seq<HeapEntry>, oldStarts: seq<nat>, newStarts: seq<nat>, lengths: seq<nat>, m: map<nat, nat>, k: nat)
    requires Sorted(heap) && |oldStarts| <= |newStarts| && |oldStarts| <= |lengths|
    requires k in InsertAll(m, Moved(heap, oldStarts, newStarts, lengths)) && k !in m
    ensures exists i, d ::
      && 0 <= i < |oldStarts| && d in heap
      && InRange(d.objectId, oldStarts[i], lengths[i])
      && k == newStarts[i] + (d.objectId - oldStarts[i])
      && InsertAll(m, Moved(heap, oldStarts, newStarts, lengths))[k] == d.trackedId
  {
    var moved := Moved(heap, oldStarts, newStarts, lengths);
    InsertAllFrom(m, moved);
    var e :| e in moved && e.objectId == k && e.trackedId == InsertAll(m, moved)[k];
    MovedFrom(heap, oldStarts, newStarts, lengths, e);
  }

  /** A set of addresses has a least element. */
  lemma Least(keys: set<nat>) returns (m: nat)
    requires keys != {}
    ensures m in keys && forall k :: k in keys ==> m <= k
    decreases |keys|
  {
    var x :| x in keys;
    if keys == {x} {
      m := x;
    } else {
      var rest := Least(keys - {x});
      m := if x < rest then x else rest;
      forall k | k in keys
        ensures m <= k
      {
        if k != x {
          assert k in keys - {x};
        }
      }
    }
  }

  /** The heap entries in address order: repeatedly takes the least address left. */
  method SortByObjectId(heap: map<nat, nat>) returns (sorted: seq<HeapEntry>)
    ensures Sorted(sorted) && Represents(sorted, heap)
  {
    sorted := [];
    var rest := heap.Keys;
    while rest != {}
      invariant SortInvariant(heap, sorted, rest)
      decreases |rest|
    {
      ghost var least := Least(rest);
      var m :| m in rest && forall k :: k in rest ==> m <= k;
      var e := HeapEntry(m, heap[m]);
      SortStep(heap, sorted, rest, e);
      sorted := sorted + [e];
      rest := rest - {m};
    }
  }

  /** The entries taken so far are sorted, below every address left, and agree with the map. */
  predicate SortInvariant(heap: map<nat, nat>, sorted: seq<HeapEntry>, rest: set<nat>)
  {
    && Sorted(sorted) && KeysOf(sorted) + rest == heap.Keys && KeysOf(sorted) !! rest
    && (forall e, k :: e in sorted && k in rest ==> e.objectId < k)
    && forall e :: e in sorted ==> e.objectId in heap && heap[e.objectId] == e.trackedId
  }

  lemma SortStep(heap: map<nat, nat>, sorted: seq<HeapEntry>, rest: set<nat>, e: HeapEntry)
    requires SortInvariant(heap, sorted, rest)
    requires e.objectId in rest && e.objectId in heap && e.trackedId == heap[e.objectId]
    requires forall k :: k in rest ==> e.objectId <= k
    ensures SortInvariant(heap, sorted + [e], rest - {e.objectId})
  {
    KeysOfSnoc(sorted, e);
    SortedSnoc(sorted, e);
    assert forall d :: d in sorted + [e] <==> d in sorted || d == e;
  }

  /** An entry above every entry of a sorted heap extends it sorted. */
  lemma SortedSnoc(heap: seq<HeapEntry>, e: HeapEntry)
    requires Sorted(heap) && forall d :: d in heap ==> d.objectId < e.objectId
    ensures Sorted(heap + [e])
  {
    forall i: nat, j: nat | i < j < |heap| + 1
      ensures Ordered(heap + [e], i, j)
    {
      if j < |heap| {
        assert Ordered(heap, i, j);
      } else {
        assert heap[i] in heap;
      }
    }
  }

  lemma KeysOfSnoc(heap: seq<HeapEntry>, e: HeapEntry)
    ensures KeysOf(heap + [e]) == KeysOf(heap) + {e.objectId}
  {
    assert forall d :: d in heap + [e] <==> d in heap || d == e;
  }

  /** The set of tracked ids of the heap, collected entry by entry. */
  method TrackedIds(heap: map<nat, nat>) returns (ids: set<nat>)
    ensures ids == heap.Values
  {
    ids := {};
    var rest := heap.Keys;
    while rest != {}
      invariant rest <= heap.Keys
      invariant ids == set k | k in heap.Keys - rest :: heap[k]
      decreases |rest|
    {
      var k :| k in rest;
      ids := ids + {heap[k]};
      rest := rest - {k};
    }
    assert heap.Keys - rest == heap.Keys;
  }

  /** The ranges of the generations this collection does not collect. */
  function Uncollected(bounds: seq<GenerationRange>, collected: seq<bool>): (r: seq<GenerationRange>)
    requires forall b :: b in bounds ==> b.generation < |collected|
    ensures forall b :: b in r <==> b in bounds && !collected[b.generation]
    decreases |bounds|
  {
    if bounds == [] then []
    else
      var n := |bounds| - 1;
      var rest := Uncollected(bounds[..n], collected);
      assert forall b :: b in bounds <==> b in bounds[..n] || b == bounds[n];
      if collected[bounds[n].generation] then rest else rest + [bounds[n]]
  }

  /** The entries each generation range selects, range by range. */
  function KeptRanges(heap: seq<HeapEntry>, ranges: seq<GenerationRange>): seq<HeapEntry>
    requires Sorted(heap)
    decreases |ranges|
  {
    if ranges == [] then []
    else
      var n := |ranges| - 1;
      KeptRanges(heap, ranges[..n]) + Segment(heap, ranges[n].rangeStart, ranges[n].rangeLength)
  }

  /** An entry is kept exactly when its address lies in one of the generation ranges. */
  lemma {:induction false} KeptRangesMembers(heap: seq<HeapEntry>, ranges: seq<GenerationRange>, e: HeapEntry)
    requires Sorted(heap)
    ensures e in KeptRanges(heap, ranges) <==>
      e in heap && exists b :: b in ranges && InRange(e.objectId, b.rangeStart, b.rangeLength)
    decreases |ranges|
  {
    if ranges != [] {
      var n := |ranges| - 1;
      KeptRangesMembers(heap, ranges[..n], e);
      SegmentMembers(heap, ranges[n].rangeStart, ranges[n].rangeLength, e);
      assert forall b :: b in ranges <==> b in ranges[..n] || b == ranges[n];
    }
  }

  class GarbageCollectionContext {
    var newHeapBuilder: map<nat, nat>
    var previousTrackedObjects: set<nat>
    var nextTrackedObjects: set<nat>
    var previousSortedHeap: seq<HeapEntry>
    const generationsCollected: seq<bool>
    const bounds: seq<GenerationRange>

    /** The heap before the collection is sorted, and only ids it tracked are tracked after. */
    ghost predicate Valid()
      reads this
    {
      && Sorted(previousSortedHeap)
      && IdsOf(previousSortedHeap) == previousTrackedObjects
      && nextTrackedObjects <= previousTrackedObjects
    }

    /**
     * Sorts the old heap by address, collects its tracked ids, and keeps
     * every range of a generation this collection leaves alone.
     */
    constructor (oldHeap: map<nat, nat>, generationsCollected: seq<bool>, bounds: seq<GenerationRange>)
      requires forall b :: b in bounds ==> b.generation < |generationsCollected|
      ensures Valid()
      ensures Represents(previousSortedHeap, oldHeap) && previousTrackedObjects == oldHeap.Values
      ensures this.generationsCollected == generationsCollected && this.bounds == bounds
      ensures var kept := KeptRanges(previousSortedHeap, Uncollected(bounds, generationsCollected));
        newHeapBuilder == InsertAll(map[], kept) && nextTrackedObjects == IdsOf(kept)
    {
      this.generationsCollected := generationsCollected;
      this.bounds := bounds;
      var tracked := TrackedIds(oldHeap);
      var sorted := SortByObjectId(oldHeap);
      previousTrackedObjects := tracked;
      previousSortedHeap := sorted;
      var builder, next := KeepUncollected(sorted, bounds, generationsCollected);
      newHeapBuilder := builder;
      nextTrackedObjects := next;
      new;
      RepresentedIds(previousSortedHeap, oldHeap);
      KeptRangesIds(previousSortedHeap, Uncollected(bounds, generationsCollected));
    }

    /**
     * Keeps, with their addresses and tracked ids, the old objects that lie
     * in each range [start, start + length - 1).
     */
    method ProcessSurvivingReferences(starts: seq<nat>, lengths: seq<nat>)
      requires Valid() && |starts| <= |lengths|
      modifies this
      ensures Valid()
      ensures previousSortedHeap == old(previousSortedHeap) && previousTrackedObjects == old(previousTrackedObjects)
      ensures newHeapBuilder == InsertAll(old(newHeapBuilder), Kept(previousSortedHeap, starts, lengths))
      ensures nextTrackedObjects == old(nextTrackedObjects) + IdsOf(Kept(previousSortedHeap, starts, lengths))
    {
      newHeapBuilder, nextTrackedObjects := KeepRanges(previousSortedHeap, starts, lengths, newHeapBuilder, nextTrackedObjects);
      KeptIds(previousSortedHeap, starts, lengths);
    }

    /**
     * Keeps the old objects that lie in each range [oldStart, oldStart +
     * length - 1), each at its new address newStart + (address - oldStart).
     */
    method ProcessMovingReferences(oldStarts: seq<nat>, newStarts: seq<nat>, lengths: seq<nat>)
      requires Valid() && |oldStarts| <= |newStarts| && |oldStarts| <= |lengths|
      modifies this
      ensures Valid()
      ensures previousSortedHeap == old(previousSortedHeap) && previousTrackedObjects == old(previousTrackedObjects)
      ensures newHeapBuilder == InsertAll(old(newHeapBuilder), Moved(previousSortedHeap, oldStarts, newStarts, lengths))
      ensures nextTrackedObjects == old(nextTrackedObjects) + IdsOf(Moved(previousSortedHeap, oldStarts, newStarts, lengths))
    {
      newHeapBuilder, nextTrackedObjects := MoveRanges(previousSortedHeap, oldStarts, newStarts, lengths, newHeapBuilder, nextTrackedObjects);
      MovedIds(previousSortedHeap, oldStarts, newStarts, lengths);
    }
  }

  /**
   * The loop of the constructor over the generation bounds, on the sorted
   * old heap: each range of a generation left alone is kept as
   * ProcessSurvivingReferences keeps it.
   */
  method KeepUncollected(heap: seq<HeapEntry>, bounds: seq<GenerationRange>, generationsCollected: seq<bool>)
    returns (builder: map<nat, nat>, next: set<nat>)
    requires Sorted(heap)
    requires forall b :: b in bounds ==> b.generation < |generationsCollected|
    ensures var kept := KeptRanges(heap, Uncollected(bounds, generationsCollected));
      builder == InsertAll(map[], kept) && next == IdsOf(kept)
  {
    builder, next := map[], {};
    ghost var done: seq<GenerationRange> := [];
    for i := 0 to |bounds|
      invariant done == Uncollected(bounds[..i], generationsCollected)
      invariant builder == InsertAll(map[], KeptRanges(heap, done)) && next == IdsOf(KeptRanges(heap, done))
    {
      var bound := bounds[i];
      assert bounds[..i + 1][..i] == bounds[..i];
      if !generationsCollected[bound.generation] {
        ghost var builder0, next0 := builder, next;
        builder, next := KeepRanges(heap, [bound.rangeStart], [bound.rangeLength], builder, next);
        UncollectedStep(heap, done, bound, builder0, next0, builder, next);
        done := done + [bound];
      }
    }
    assert bounds[..|bounds|] == bounds;
  }

  /** One iteration of the constructor's loop keeps one more range. */
  lemma UncollectedStep(heap: seq<HeapEntry>, done: seq<GenerationRange>, bound: GenerationRange,
                        b0: map<nat, nat>, n0: set<nat>, b1: map<nat, nat>, n1: set<nat>)
    requires Sorted(heap)
    requires b0 == InsertAll(map[], KeptRanges(heap, done)) && n0 == IdsOf(KeptRanges(heap, done))
    requires var kept := Kept(heap, [bound.rangeStart], [bound.rangeLength]);
      b1 == InsertAll(b0, kept) && n1 == n0 + IdsOf(kept)
    ensures b1 == InsertAll(map[], KeptRanges(heap, done + [bound])) && n1 == IdsOf(KeptRanges(heap, done + [bound]))
  {
    KeptOneMore(heap, done, bound);
    InsertAllAppend(map[], KeptRanges(heap, done), Kept(heap, [bound.rangeStart], [bound.rangeLength]));
  }

  /** The entries kept from the ranges are entries of the heap, so their ids are among its ids. */
  lemma KeptRangesIds(heap: seq<HeapEntry>, ranges: seq<GenerationRange>)
    requires Sorted(heap)
    ensures IdsOf(KeptRanges(heap, ranges)) <= IdsOf(heap)
  {
    forall e | e in KeptRanges(heap, ranges)
      ensures e.trackedId in IdsOf(heap)
    {
      KeptRangesMembers(heap, ranges, e);
    }
  }

  /** The loop of ProcessSurvivingReferences over the ranges, on the sorted old heap. */
  method KeepRanges(heap: seq<HeapEntry>, starts: seq<nat>, lengths: seq<nat>, builder: map<nat, nat>, next: set<nat>)
    returns (builder': map<nat, nat>, next': set<nat>)
    requires Sorted(heap) && |starts| <= |lengths|
    ensures builder' == InsertAll(builder, Kept(heap, starts, lengths))
    ensures next' == next + IdsOf(Kept(heap, starts, lengths))
  {
    builder', next' := builder, next;
    var index := 0;
    while index < |starts|
      invariant 0 <= index <= |starts|
      invariant builder' == InsertAll(builder, Kept(heap, starts[..index], lengths))
      invariant next' == next + IdsOf(Kept(heap, starts[..index], lengths))
    {
      builder', next' := KeepRange(heap, starts, lengths, index, builder, next, builder', next');
      index := index + 1;
    }
    assert starts[..index] == starts;
  }

  /** One iteration of the loop of ProcessSurvivingReferences: keeps the objects of range `index`. */
  method KeepRange(heap: seq<HeapEntry>, starts: seq<nat>, lengths: seq<nat>, index: nat,
                   builder: map<nat, nat>, next: set<nat>, b0: map<nat, nat>, n0: set<nat>)
    returns (b1: map<nat, nat>, n1: set<nat>)
    requires Sorted(heap) && index < |starts| <= |lengths|
    requires b0 == InsertAll(builder, Kept(heap, starts[..index], lengths)) && n0 == next + IdsOf(Kept(heap, starts[..index], lengths))
    ensures b1 == InsertAll(builder, Kept(heap, starts[..index + 1], lengths)) && n1 == next + IdsOf(Kept(heap, starts[..index + 1], lengths))
  {
    var start, length := starts[index], lengths[index];
    var startIndex := ClosestIndex(heap, start);
    var endIndex := ClosestIndex(heap, start as int + length - 1);
    b1, n1 := KeepSlice(heap, startIndex, endIndex, b0, n0);
    SurvivingStep(heap, starts, lengths, index, start, length, builder, next, b0, n0, b1, n1, startIndex, endIndex);
  }

  /** The loop of ProcessMovingReferences over the ranges, on the sorted old heap. */
  method MoveRanges(heap: seq<HeapEntry>, oldStarts: seq<nat>, newStarts: seq<nat>, lengths: seq<nat>, builder: map<nat, nat>, next: set<nat>)
    returns (builder': map<nat, nat>, next': set<nat>)
    requires Sorted(heap) && |oldStarts| <= |newStarts| && |oldStarts| <= |lengths|
    ensures builder' == InsertAll(builder, Moved(heap, oldStarts, newStarts, lengths))
    ensures next' == next + IdsOf(Moved(heap, oldStarts, newStarts, lengths))
  {
    builder', next' := builder, next;
    var index := 0;
    while index < |oldStarts|
      invariant 0 <= index <= |oldStarts|
      invariant builder' == InsertAll(builder, Moved(heap, oldStarts[..index], newStarts, lengths))
      invariant next' == next + IdsOf(Moved(heap, oldStarts[..index], newStarts, lengths))
    {
      builder', next' := MoveRange(heap, oldStarts, newStarts, lengths, index, builder, next, builder', next');
      index := index + 1;
    }
    assert oldStarts[..index] == oldStarts;
  }

  /** One iteration of the loop of ProcessMovingReferences: places the objects of range `index`. */
  method MoveRange(heap: seq<HeapEntry>, oldStarts: seq<nat>, newStarts: seq<nat>, lengths: seq<nat>, index: nat,
                   builder: map<nat, nat>, next: set<nat>, b0: map<nat, nat>, n0: set<nat>)
    returns (b1: map<nat, nat>, n1: set<nat>)
    requires Sorted(heap) && index < |oldStarts| <= |newStarts| && |oldStarts| <= |lengths|
    requires b0 == InsertAll(builder, Moved(heap, oldStarts[..index], newStarts, lengths))
    requires n0 == next + IdsOf(Moved(heap, oldStarts[..index], newStarts, lengths))
    ensures b1 == InsertAll(builder, Moved(heap, oldStarts[..index + 1], newStarts, lengths))
    ensures n1 == next + IdsOf(Moved(heap, oldStarts[..index + 1], newStarts, lengths))
  {
    var newStart, oldStart, length := newStarts[index], oldStarts[index], lengths[index];
    var startIndex := ClosestIndex(heap, oldStart);
    var endIndex := ClosestIndex(heap, oldStart as int + length - 1);
    b1, n1 := MoveSlice(heap, startIndex, endIndex, oldStart, newStart, b0, n0);
    MovingStep(heap, oldStarts, newStarts, lengths, index, oldStart, newStart, length, builder, next, b0, n0, b1, n1, startIndex, endIndex);
  }

  /**
   * The index both Process methods take from BinarySearch: the match, or
   * the insertion point recovered from its complement.
   */
  method ClosestIndex(heap: seq<HeapEntry>, objectId: int) returns (index: nat)
    requires Sorted(heap)
    ensures index == Position(heap, objectId)
  {
    var r := BinarySearch(heap, objectId);
    if r < 0 {
      r := -r - 1;
    }
    index := r;
  }

  /**
   * Finds `objectId` in the sorted old heap: its index when present,
   * otherwise the complement of its insertion point, so ~0 when the heap
   * is empty.
   */
  method BinarySearch(heap: seq<HeapEntry>, objectId: int) returns (r: int)
    requires Sorted(heap)
    ensures r >= 0 ==> r < |heap| && heap[r].objectId == objectId
    ensures r < 0 ==> objectId !in KeysOf(heap)
    ensures (if r < 0 then -r - 1 else r) == Position(heap, objectId)
  {
    if |heap| == 0 {
      return -1;
    }
    var leftIndex := 0;
    var rightIndex := |heap| - 1;
    while leftIndex <= rightIndex
      invariant 0 <= leftIndex <= |heap| && -1 <= rightIndex < |heap| && leftIndex <= rightIndex + 1
      invariant forall i :: 0 <= i < leftIndex ==> heap[i].objectId < objectId
      invariant forall i :: rightIndex < i < |heap| ==> heap[i].objectId > objectId
      decreases rightIndex - leftIndex
    {
      var middleIndex := (leftIndex + rightIndex) / 2;
      var middleValue := heap[middleIndex].objectId;
      forall i | 0 <= i < |heap|
        ensures i < middleIndex ==> heap[i].objectId < middleValue
        ensures middleIndex < i ==> heap[i].objectId > middleValue
      {
        if i < middleIndex {
          assert Ordered(heap, i, middleIndex);
        } else if middleIndex < i {
          assert Ordered(heap, middleIndex, i);
        }
      }
      if middleValue == objectId {
        PositionUnique(heap, objectId, middleIndex);
        return middleIndex;
      } else if middleValue < objectId {
        leftIndex := middleIndex + 1;
      } else {
        rightIndex := middleIndex - 1;
      }
    }
    PositionUnique(heap, objectId, leftIndex);
    r := -leftIndex - 1;
  }

  /** The inner loop of ProcessSurvivingReferences: inserts the entries from `lo` up to `hi`. */
  method KeepSlice(heap: seq<HeapEntry>, lo: nat, hi: nat, builder: map<nat, nat>, next: set<nat>)
    returns (builder': map<nat, nat>, next': set<nat>)
    requires lo <= |heap| && hi <= |heap|
    ensures builder' == InsertAll(builder, Slice(heap, lo, hi))
    ensures next' == next + IdsOf(Slice(heap, lo, hi))
  {
    builder', next' := builder, next;
    if hi < lo {
      return;
    }
    var survivingIndex := lo;
    while survivingIndex < hi
      invariant lo <= survivingIndex <= hi
      invariant builder' == InsertAll(builder, heap[lo..survivingIndex])
      invariant next' == next + IdsOf(heap[lo..survivingIndex])
    {
      var current := heap[survivingIndex];
      SliceStep(heap, lo, survivingIndex);
      builder' := Insert(builder', current);
      next' := next' + {current.trackedId};
      survivingIndex := survivingIndex + 1;
    }
    assert Slice(heap, lo, hi) == heap[lo..hi];
  }

  /**
   * The inner loop of ProcessMovingReferences: inserts the entries from `lo`
   * up to `hi`, all at or above `oldStart`, relative to `newStart`.
   */
  method MoveSlice(heap: seq<HeapEntry>, lo: nat, hi: nat, oldStart: nat, newStart: nat, builder: map<nat, nat>, next: set<nat>)
    returns (builder': map<nat, nat>, next': set<nat>)
    requires lo <= |heap| && hi <= |heap|
    ensures builder' == InsertAll(builder, Relocated(Slice(heap, lo, hi), oldStart, newStart))
    ensures next' == next + IdsOf(Relocated(Slice(heap, lo, hi), oldStart, newStart))
  {
    builder', next' := builder, next;
    if hi < lo {
      return;
    }
    var survivingIndex := lo;
    ghost var moved: seq<HeapEntry> := [];
    while survivingIndex < hi
      invariant lo <= survivingIndex <= hi
      invariant moved == Relocated(heap[lo..survivingIndex], oldStart, newStart)
      invariant builder' == InsertAll(builder, moved) && next' == next + IdsOf(moved)
    {
      var current := heap[survivingIndex];
      var newStartingIndex := Shifted(current.objectId, oldStart, newStart);
      var entry := HeapEntry(newStartingIndex, current.trackedId);
      RelocatedStep(heap, lo, survivingIndex, oldStart, newStart);
      InsertSnoc(builder, next, moved, entry);
      builder' := Insert(builder', entry);
      next' := next' + {current.trackedId};
      moved := moved + [entry];
      survivingIndex := survivingIndex + 1;
    }
    assert Slice(heap, lo, hi) == heap[lo..hi];
  }

  /** One iteration of the loop of ProcessSurvivingReferences keeps one more range. */
  lemma SurvivingStep(heap: seq<HeapEntry>, starts: seq<nat>, lengths: seq<nat>, index: nat, start: nat, length: nat,
                      m: map<nat, nat>, t: set<nat>, b0: map<nat, nat>, n0: set<nat>, b1: map<nat, nat>, n1: set<nat>, lo: nat, hi: nat)
    requires Sorted(heap) && index < |starts| <= |lengths| && start == starts[index] && length == lengths[index]
    requires b0 == InsertAll(m, Kept(heap, starts[..index], lengths)) && n0 == t + IdsOf(Kept(heap, starts[..index], lengths))
    requires lo == Position(heap, start) && hi == Position(heap, start as int + length - 1)
    requires b1 == InsertAll(b0, Slice(heap, lo, hi)) && n1 == n0 + IdsOf(Slice(heap, lo, hi))
    ensures b1 == InsertAll(m, Kept(heap, starts[..index + 1], lengths)) && n1 == t + IdsOf(Kept(heap, starts[..index + 1], lengths))
  {
    SegmentSlice(heap, start, length);
    KeptStep(heap, starts, lengths, index);
    InsertAllAppend(m, Kept(heap, starts[..index], lengths), Slice(heap, lo, hi));
  }

  /** One iteration of the loop of ProcessMovingReferences places one more range. */
  lemma MovingStep(heap: seq<HeapEntry>, oldStarts: seq<nat>, newStarts: seq<nat>, lengths: seq<nat>, index: nat,
                   oldStart: nat, newStart: nat, length: nat,
                   m: map<nat, nat>, t: set<nat>, b0: map<nat, nat>, n0: set<nat>, b1: map<nat, nat>, n1: set<nat>, lo: nat, hi: nat)
    requires Sorted(heap) && index < |oldStarts| <= |newStarts| && |oldStarts| <= |lengths|
    requires oldStart == oldStarts[index] && newStart == newStarts[index] && length == lengths[index]
    requires b0 == InsertAll(m, Moved(heap, oldStarts[..index], newStarts, lengths))
    requires n0 == t + IdsOf(Moved(heap, oldStarts[..index], newStarts, lengths))
    requires lo == Position(heap, oldStart) && hi == Position(heap, oldStart as int + length - 1)
    requires b1 == InsertAll(b0, Relocated(Slice(heap, lo, hi), oldStart, newStart))
    requires n1 == n0 + IdsOf(Relocated(Slice(heap, lo, hi), oldStart, newStart))
    ensures b1 == InsertAll(m, Moved(heap, oldStarts[..index + 1], newStarts, lengths))
    ensures n1 == t + IdsOf(Moved(heap, oldStarts[..index + 1], newStarts, lengths))
  {
    SegmentSlice(heap, oldStart, length);
    MovedStep(heap, oldStarts, newStarts, lengths, index);
    InsertAllAppend(m, Moved(heap, oldStarts[..index], newStarts, lengths), Relocated(Slice(heap, lo, hi), oldStart, newStart));
  }

  /** Kept entries are entries of the heap, so their ids are among its ids. */
  lemma KeptIds(heap: seq<HeapEntry>, starts: seq<nat>, lengths: seq<nat>)
    requires Sorted(heap) && |starts| <= |lengths|
    ensures IdsOf(Kept(heap, starts, lengths)) <= IdsOf(heap)
  {
    forall e | e in Kept(heap, starts, lengths)
      ensures e.trackedId in IdsOf(heap)
    {
      KeptMembers(heap, starts, lengths, e);
    }
  }

  /** Moved entries carry ids of entries of the heap. */
  lemma MovedIds(heap: seq<HeapEntry>, oldStarts: seq<nat>, newStarts: seq<nat>, lengths: seq<nat>)
    requires Sorted(heap) && |oldStarts| <= |newStarts| && |oldStarts| <= |lengths|
    ensures IdsOf(Moved(heap, oldStarts, newStarts, lengths)) <= IdsOf(heap)
  {
    forall e | e in Moved(heap, oldStarts, newStarts, lengths)
      ensures e.trackedId in IdsOf(heap)
    {
      MovedFrom(heap, oldStarts, newStarts, lengths, e);
    }
  }

  lemma RepresentedIds(heap: seq<HeapEntry>, m: map<nat, nat>)
    requires Represents(heap, m)
    ensures IdsOf(heap) == m.Values
  {
    forall t | t in m.Values
      ensures t in IdsOf(heap)
    {
      var k :| k in m && m[k] == t;
      assert k in KeysOf(heap);
      var e :| e in heap && e.objectId == k;
    }
  }

  lemma SliceStep(heap: seq<HeapEntry>, lo: nat, i: nat)
    requires lo <= i < |heap|
    ensures heap[lo..i + 1] == heap[lo..i] + [heap[i]]
    ensures IdsOf(heap[lo..i + 1]) == IdsOf(heap[lo..i]) + {heap[i].trackedId}
    ensures heap[i].trackedId in IdsOf(heap)
  {
    assert heap[lo..i + 1] == heap[lo..i] + [heap[i]];
    IdsOfAppend(heap[lo..i], [heap[i]]);
  }

  lemma RelocatedStep(heap: seq<HeapEntry>, lo: nat, i: nat, oldStart: nat, newStart: nat)
    requires lo <= i < |heap|
    ensures Relocated(heap[lo..i + 1], oldStart, newStart)
      == Relocated(heap[lo..i], oldStart, newStart) + [HeapEntry(Shifted(heap[i].objectId, oldStart, newStart), heap[i].trackedId)]
  {
    assert heap[lo..i + 1] == heap[lo..i] + [heap[i]];
  }

  /** Inserting one more entry, and collecting its id. */
  lemma InsertSnoc(m: map<nat, nat>, ids: set<nat>, entries: seq<HeapEntry>, e: HeapEntry)
    ensures InsertAll(m, entries + [e]) == Insert(InsertAll(m, entries), e)
    ensures IdsOf(entries + [e]) == IdsOf(entries) + {e.trackedId}
  {
    assert (entries + [e])[..|entries|] == entries;
    IdsOfAppend(entries, [e]);
  }

  lemma KeptStep(heap: seq<HeapEntry>, starts: seq<nat>, lengths: seq<nat>, index: nat)
    requires Sorted(heap) && index < |starts| <= |lengths|
    ensures Kept(heap, starts[..index + 1], lengths) == Kept(heap, starts[..index], lengths) + Segment(heap, starts[index], lengths[index])
    ensures IdsOf(Kept(heap, starts[..index + 1], lengths)) == IdsOf(Kept(heap, starts[..index], lengths)) + IdsOf(Segment(heap, starts[index], lengths[index]))
  {
    assert starts[..index + 1][..index] == starts[..index];
    IdsOfAppend(Kept(heap, starts[..index], lengths), Segment(heap, starts[index], lengths[index]));
  }

  lemma MovedStep(heap: seq<HeapEntry>, oldStarts: seq<nat>, newStarts: seq<nat>, lengths: seq<nat>, index: nat)
    requires Sorted(heap) && index < |oldStarts| <= |newStarts| && |oldStarts| <= |lengths|
    ensures var r := Relocated(Segment(heap, oldStarts[index], lengths[index]), oldStarts[index], newStarts[index]);
      && Moved(heap, oldStarts[..index + 1], newStarts, lengths) == Moved(heap, oldStarts[..index], newStarts, lengths) + r
      && IdsOf(Moved(heap, oldStarts[..index + 1], newStarts, lengths)) == IdsOf(Moved(heap, oldStarts[..index], newStarts, lengths)) + IdsOf(r)
  {
    assert oldStarts[..index + 1][..index] == oldStarts[..index];
    IdsOfAppend(Moved(heap, oldStarts[..index], newStarts, lengths),
      Relocated(Segment(heap, oldStarts[index], lengths[index]), oldStarts[index], newStarts[index]));
  }

  lemma IdsOfAppend(a: seq<HeapEntry>, b: seq<HeapEntry>)
    ensures IdsOf(a + b) == IdsOf(a) + IdsOf(b)
  {
    assert forall e :: e in a + b <==> e in a || e in b;
  }

  /** One more uncollected range keeps the entries kept so far and then its own. */
  lemma KeptOneMore(heap: seq<HeapEntry>, done: seq<GenerationRange>, bound: GenerationRange)
    requires Sorted(heap)
    ensures KeptRanges(heap, done + [bound]) == KeptRanges(heap, done) + Kept(heap, [bound.rangeStart], [bound.rangeLength])
    ensures IdsOf(KeptRanges(heap, done + [bound])) == IdsOf(KeptRanges(heap, done)) + IdsOf(Kept(heap, [bound.rangeStart], [bound.rangeLength]))
  {
    assert (done + [bound])[..|done|] == done;
    assert Kept(heap, [bound.rangeStart], [bound.rangeLength]) == [] + Segment(heap, bound.rangeStart, bound.rangeLength);
    IdsOfAppend(KeptRanges(heap, done), Kept(heap, [bound.rangeStart], [bound.rangeLength]));
  }
}
