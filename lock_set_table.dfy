/**
 * The lock-set table of the Eraser data-race detector: every distinct set of
 * held locks is stored once, as a sorted sequence of lock ids, and named by
 * its index in the table. Index 0 is the empty set. Intersect, Add and
 * Remove compute a set from sets already in the table, intern the result
 * and remember it in a cache.
 */
module LockSetTable {

  /**
   * A lock, by the value of its object id (the process part of a tracked
   * object id takes no part in the ordering or the searches).
   */
  type LockId = nat

  /** The index of a set in the table; 0 is the empty set. */
  type LockSetIndex = nat

  const Empty: LockSetIndex := 0

  /** Strictly ascending: the form every stored set keeps. */
  predicate Sorted(s: seq<LockId>)
  {
    forall i, j :: 0 <= i < j < |s| ==> s[i] < s[j]
  }

  /** The locks of a stored set. */
  function Elems(s: seq<LockId>): set<LockId>
  {
    set x | x in s
  }

  /** `~x`: the two's complement of x, as BinarySearch returns an insertion point. */
  function Complement(x: int): int
  {
    -x - 1
  }

  /** The first lock of a sorted set is its least. */
  lemma FirstIsLeast(s: seq<LockId>, x: LockId)
    requires Sorted(s) && x in s
    ensures s[0] <= x
  {
    var k :| 0 <= k < |s| && s[k] == x;
    assert k == 0 || s[0] < s[k];
  }

  /** Dropping the first lock of a sorted set drops exactly that lock. */
  lemma TailElems(s: seq<LockId>)
    requires Sorted(s) && s != []
    ensures Elems(s[1..]) == Elems(s) - {s[0]}
  {
    forall x | x in Elems(s)
      ensures x in Elems(s[1..]) <==> x != s[0]
    {
      var k :| 0 <= k < |s| && s[k] == x;
      assert k == 0 || s[0] < s[k];
    }
  }

  /** Two sorted sequences with the same locks are the same sequence. */
  lemma {:induction false} SortedUnique(a: seq<LockId>, b: seq<LockId>)
    requires Sorted(a) && Sorted(b) && Elems(a) == Elems(b)
    ensures a == b
    decreases |a|
  {
    assert a != [] ==> a[0] in Elems(b);
    assert b != [] ==> b[0] in Elems(a);
    if a != [] && b != [] {
      FirstIsLeast(a, b[0]);
      FirstIsLeast(b, a[0]);
      TailElems(a);
      TailElems(b);
      SortedUnique(a[1..], b[1..]);
      assert a == [a[0]] + a[1..] && b == [b[0]] + b[1..];
    }
  }

  /**
   * The binary search of a sorted set for a lock: the lock's index when it
   * is there, and otherwise `~p` for the point p at which inserting it keeps
   * the set sorted.
   */
  method BinarySearch(sortedSet: seq<LockId>, lockId: LockId) returns (r: int)
    requires Sorted(sortedSet)
    ensures 0 <= r ==> r < |sortedSet| && sortedSet[r] == lockId
    ensures r < 0 ==> lockId !in sortedSet
    ensures r < 0 ==> 0 <= Complement(r) <= |sortedSet| && Sorted(CreateWithInsertion(sortedSet, lockId, Complement(r)))
  {
    var low := 0;
    var high := |sortedSet| - 1;
    while low <= high
      invariant 0 <= low <= high + 1 <= |sortedSet|
      invariant forall i :: 0 <= i < low ==> sortedSet[i] < lockId
      invariant forall i :: high < i < |sortedSet| ==> lockId < sortedSet[i]
    {
      var mid := low + (high - low) / 2;
      var midValue := sortedSet[mid];
      if midValue == lockId {
        return mid;
      }
      if midValue < lockId {
        low := mid + 1;
      } else {
        high := mid - 1;
      }
    }
    InsertSorted(sortedSet, lockId, low);
    return Complement(low);
  }

  /** CreateWithInsertion: the set with the lock put at position p. */
  function CreateWithInsertion(existing: seq<LockId>, lockId: LockId, p: nat): (r: seq<LockId>)
    requires p <= |existing|
    ensures |r| == |existing| + 1 && r[p] == lockId
    ensures Elems(r) == Elems(existing) + {lockId}
  {
    var r := existing[..p] + [lockId] + existing[p..];
    assert existing == existing[..p] + existing[p..];
    r
  }

  /** Inserting at the point below which every lock is smaller, and above which every lock is larger, keeps the set sorted. */
  lemma InsertSorted(existing: seq<LockId>, lockId: LockId, p: nat)
    requires Sorted(existing) && p <= |existing|
    requires forall i :: 0 <= i < p ==> existing[i] < lockId
    requires forall i :: p <= i < |existing| ==> lockId < existing[i]
    ensures Sorted(CreateWithInsertion(existing, lockId, p))
  {
    var r := CreateWithInsertion(existing, lockId, p);
    forall i | 0 <= i < |r|
      ensures r[i] == if i < p then existing[i] else if i == p then lockId else existing[i - 1]
    {
    }
  }

  /** CreateWithRemoval: the set without its lock at position i. */
  function CreateWithRemoval(existing: seq<LockId>, i: nat): (r: seq<LockId>)
    requires Sorted(existing) && i < |existing|
    ensures Sorted(r) && |r| == |existing| - 1
    ensures Elems(r) == Elems(existing) - {existing[i]}
  {
    if |existing| == 1 then
      assert Elems(existing) == {existing[0]};
      []
    else
      var r := existing[..i] + existing[i + 1..];
      assert existing == existing[..i] + [existing[i]] + existing[i + 1..];
      forall k | 0 <= k < |r|
        ensures r[k] == if k < i then existing[k] else existing[k + 1]
      {
      }
      assert existing[i] !in r by {
        forall k | 0 <= k < |r|
          ensures r[k] != existing[i]
        {
          assert k < i || k + 1 > i;
        }
      }
      r
  }

  /**
   * The merge of ComputeSortedIntersection: walks both sets in step and
   * keeps each lock found in both.
   */
  method SortedIntersection(setA: seq<LockId>, setB: seq<LockId>) returns (r: seq<LockId>)
    requires Sorted(setA) && Sorted(setB)
    ensures Sorted(r) && Elems(r) == Elems(setA) * Elems(setB)
  {
    r := [];
    var indexA, indexB := 0, 0;
    while indexA < |setA| && indexB < |setB|
      invariant 0 <= indexA <= |setA| && 0 <= indexB <= |setB|
      invariant Sorted(r)
      invariant forall x :: x in r <==> x in setA[..indexA] && x in setB[..indexB]
      invariant forall k :: 0 <= k < |r| ==> indexA < |setA| ==> r[k] < setA[indexA]
      invariant indexA > 0 && indexB < |setB| ==> setA[indexA - 1] < setB[indexB]
      invariant indexB > 0 && indexA < |setA| ==> setB[indexB - 1] < setA[indexA]
      decreases |setA| - indexA + |setB| - indexB
    {
      var idA, idB := setA[indexA], setB[indexB];
      if idA == idB {
        IntersectionStep(setA, setB, indexA, indexB, r);
        r := r + [idA];
        indexA, indexB := indexA + 1, indexB + 1;
      } else if idA < idB {
        SkipA(setA, setB, indexA, indexB, r);
        indexA := indexA + 1;
      } else {
        SkipB(setA, setB, indexA, indexB, r);
        indexB := indexB + 1;
      }
    }
    IntersectionDone(setA, setB, indexA, indexB, r);
  }

  /** A lock found in both sets joins the intersection. */
  lemma IntersectionStep(setA: seq<LockId>, setB: seq<LockId>, indexA: nat, indexB: nat, r: seq<LockId>)
    requires Sorted(setA) && Sorted(setB) && Sorted(r)
    requires indexA < |setA| && indexB < |setB| && setA[indexA] == setB[indexB]
    requires forall x :: x in r <==> x in setA[..indexA] && x in setB[..indexB]
    requires forall k :: 0 <= k < |r| ==> r[k] < setA[indexA]
    ensures Sorted(r + [setA[indexA]])
    ensures forall x :: x in r + [setA[indexA]] <==> x in setA[..indexA + 1] && x in setB[..indexB + 1]
    ensures forall k :: 0 <= k < |r| + 1 ==> indexA + 1 < |setA| ==> (r + [setA[indexA]])[k] < setA[indexA + 1]
  {
    var r' := r + [setA[indexA]];
    assert setA[..indexA + 1] == setA[..indexA] + [setA[indexA]];
    assert setB[..indexB + 1] == setB[..indexB] + [setB[indexB]];
    forall x
      ensures x in r' <==> x in setA[..indexA + 1] && x in setB[..indexB + 1]
    {
      if x == setA[indexA] {
        assert x !in setA[..indexA] by {
          forall k | 0 <= k < indexA
            ensures setA[k] != x
          {
          }
        }
      }
    }
    forall k | 0 <= k < |r'| && indexA + 1 < |setA|
      ensures r'[k] < setA[indexA + 1]
    {
      if k < |r| {
        assert r[k] < setA[indexA];
      }
    }
  }

  /** A lock of the first set below the current lock of the second is in neither the rest of the second nor the result. */
  lemma SkipA(setA: seq<LockId>, setB: seq<LockId>, indexA: nat, indexB: nat, r: seq<LockId>)
    requires Sorted(setA) && Sorted(setB)
    requires indexA < |setA| && indexB < |setB| && setA[indexA] < setB[indexB]
    requires forall x :: x in r <==> x in setA[..indexA] && x in setB[..indexB]
    requires indexB > 0 ==> setB[indexB - 1] < setA[indexA]
    ensures forall x :: x in r <==> x in setA[..indexA + 1] && x in setB[..indexB]
  {
    assert setA[..indexA + 1] == setA[..indexA] + [setA[indexA]];
    assert setA[indexA] !in setB[..indexB] by {
      forall k | 0 <= k < indexB
        ensures setB[k] != setA[indexA]
      {
        assert setB[k] <= setB[indexB - 1];
      }
    }
  }

  /** A lock of the second set below the current lock of the first is in neither the rest of the first nor the result. */
  lemma SkipB(setA: seq<LockId>, setB: seq<LockId>, indexA: nat, indexB: nat, r: seq<LockId>)
    requires Sorted(setA) && Sorted(setB)
    requires indexA < |setA| && indexB < |setB| && setB[indexB] < setA[indexA]
    requires forall x :: x in r <==> x in setA[..indexA] && x in setB[..indexB]
    requires indexA > 0 ==> setA[indexA - 1] < setB[indexB]
    ensures forall x :: x in r <==> x in setA[..indexA] && x in setB[..indexB + 1]
  {
    assert setB[..indexB + 1] == setB[..indexB] + [setB[indexB]];
    assert setB[indexB] !in setA[..indexA] by {
      forall k | 0 <= k < indexA
        ensures setA[k] != setB[indexB]
      {
        assert setA[k] <= setA[indexA - 1];
      }
    }
  }

  /** Once one set is exhausted, no lock of either beyond the walked parts is in both. */
  lemma IntersectionDone(setA: seq<LockId>, setB: seq<LockId>, indexA: nat, indexB: nat, r: seq<LockId>)
    requires Sorted(setA) && Sorted(setB)
    requires indexA <= |setA| && indexB <= |setB| && (indexA == |setA| || indexB == |setB|)
    requires forall x :: x in r <==> x in setA[..indexA] && x in setB[..indexB]
    requires indexA > 0 && indexB < |setB| ==> setA[indexA - 1] < setB[indexB]
    requires indexB > 0 && indexA < |setA| ==> setB[indexB - 1] < setA[indexA]
    ensures Elems(r) == Elems(setA) * Elems(setB)
  {
    forall x | x in setA && x in setB
      ensures x in setA[..indexA] && x in setB[..indexB]
    {
      var i :| 0 <= i < |setA| && setA[i] == x;
      var j :| 0 <= j < |setB| && setB[j] == x;
      if indexA == |setA| {
        SortedLe(setA, i, indexA - 1);
        if indexB < |setB| {
          forall m | indexB <= m < |setB|
            ensures setA[indexA - 1] < setB[m]
          {
            SortedLe(setB, indexB, m);
          }
        }
        assert setB[..indexB][j] == x;
      } else {
        SortedLe(setB, j, indexB - 1);
        if indexA < |setA| {
          forall m | indexA <= m < |setA|
            ensures setB[indexB - 1] < setA[m]
          {
            SortedLe(setA, indexA, m);
          }
        }
        assert setA[..indexA][i] == x;
      }
    }
  }

  lemma SortedLe(s: seq<LockId>, i: nat, j: nat)
    requires Sorted(s) && i <= j < |s|
    ensures s[i] <= s[j]
  {
  }

  /** Index 0 is the empty set, and every set is sorted and stored once. */
  ghost predicate SetsOk(lockSets: seq<seq<LockId>>)
  {
    && |lockSets| >= 1 && lockSets[0] == []
    && (forall i :: 0 <= i < |lockSets| ==> Sorted(lockSets[i]))
    && (forall i, j :: 0 <= i < j < |lockSets| ==> lockSets[i] != lockSets[j])
  }

  /** The hash index lists every set under its hash, and only sets with that hash. */
  ghost predicate HashOk(hash: seq<LockId> -> int, lockSets: seq<seq<LockId>>, hashToIndices: map<int, seq<LockSetIndex>>)
  {
    && (forall i :: 0 <= i < |lockSets| ==> hash(lockSets[i]) in hashToIndices && i in hashToIndices[hash(lockSets[i])])
    && (forall h, k :: h in hashToIndices && 0 <= k < |hashToIndices[h]| ==>
          hashToIndices[h][k] < |lockSets| && hash(lockSets[hashToIndices[h][k]]) == h)
  }

  /** Every cached intersection names the intersection of its two sets. */
  ghost predicate IntersectionCacheOk(lockSets: seq<seq<LockId>>, cache: map<(LockSetIndex, LockSetIndex), LockSetIndex>)
  {
    forall key :: key in cache ==>
      key.0 < |lockSets| && key.1 < |lockSets| && cache[key] < |lockSets| &&
      Elems(lockSets[cache[key]]) == Elems(lockSets[key.0]) * Elems(lockSets[key.1])
  }

  /** Every cached addition names its set with the lock added. */
  ghost predicate AddCacheOk(lockSets: seq<seq<LockId>>, cache: map<(LockSetIndex, LockId), LockSetIndex>)
  {
    forall key :: key in cache ==>
      key.0 < |lockSets| && cache[key] < |lockSets| &&
      Elems(lockSets[cache[key]]) == Elems(lockSets[key.0]) + {key.1}
  }

  /** Every cached removal names its set with the lock removed. */
  ghost predicate RemoveCacheOk(lockSets: seq<seq<LockId>>, cache: map<(LockSetIndex, LockId), LockSetIndex>)
  {
    forall key :: key in cache ==>
      key.0 < |lockSets| && cache[key] < |lockSets| &&
      Elems(lockSets[cache[key]]) == Elems(lockSets[key.0]) - {key.1}
  }

  /** Recording a correct intersection keeps the intersection cache correct. */
  lemma IntersectionCacheAdd(lockSets: seq<seq<LockId>>, cache: map<(LockSetIndex, LockSetIndex), LockSetIndex>,
      key: (LockSetIndex, LockSetIndex), r: LockSetIndex)
    requires IntersectionCacheOk(lockSets, cache)
    requires key.0 < |lockSets| && key.1 < |lockSets| && r < |lockSets|
    requires Elems(lockSets[r]) == Elems(lockSets[key.0]) * Elems(lockSets[key.1])
    ensures IntersectionCacheOk(lockSets, cache[key := r])
  {
  }

  /** Recording a correct addition keeps the addition cache correct. */
  lemma AddCacheAdd(lockSets: seq<seq<LockId>>, cache: map<(LockSetIndex, LockId), LockSetIndex>,
      key: (LockSetIndex, LockId), r: LockSetIndex)
    requires AddCacheOk(lockSets, cache)
    requires key.0 < |lockSets| && r < |lockSets|
    requires Elems(lockSets[r]) == Elems(lockSets[key.0]) + {key.1}
    ensures AddCacheOk(lockSets, cache[key := r])
  {
  }

  /** Recording a correct removal keeps the removal cache correct. */
  lemma RemoveCacheAdd(lockSets: seq<seq<LockId>>, cache: map<(LockSetIndex, LockId), LockSetIndex>,
      key: (LockSetIndex, LockId), r: LockSetIndex)
    requires RemoveCacheOk(lockSets, cache)
    requires key.0 < |lockSets| && r < |lockSets|
    requires Elems(lockSets[r]) == Elems(lockSets[key.0]) - {key.1}
    ensures RemoveCacheOk(lockSets, cache[key := r])
  {
  }

  /** A new sorted set appended to the table keeps the sets in order and every cached result. */
  lemma AppendKeepsCaches(lockSets: seq<seq<LockId>>, s: seq<LockId>,
      ic: map<(LockSetIndex, LockSetIndex), LockSetIndex>, ac: map<(LockSetIndex, LockId), LockSetIndex>,
      rc: map<(LockSetIndex, LockId), LockSetIndex>)
    requires SetsOk(lockSets) && Sorted(s) && s !in lockSets
    requires IntersectionCacheOk(lockSets, ic) && AddCacheOk(lockSets, ac) && RemoveCacheOk(lockSets, rc)
    ensures SetsOk(lockSets + [s])
    ensures IntersectionCacheOk(lockSets + [s], ic) && AddCacheOk(lockSets + [s], ac) && RemoveCacheOk(lockSets + [s], rc)
  {
    var l := lockSets + [s];
    assert forall i :: 0 <= i < |lockSets| ==> l[i] == lockSets[i];
  }

  /** Appending a set and listing its index under its hash keeps the hash index. */
  lemma AppendKeepsHash(hash: seq<LockId> -> int, lockSets: seq<seq<LockId>>, hashToIndices: map<int, seq<LockSetIndex>>,
      s: seq<LockId>, existing: seq<LockSetIndex>)
    requires HashOk(hash, lockSets, hashToIndices)
    requires existing == if hash(s) in hashToIndices then hashToIndices[hash(s)] else []
    ensures HashOk(hash, lockSets + [s], hashToIndices[hash(s) := existing + [|lockSets|]])
  {
    var l := lockSets + [s];
    var m := hashToIndices[hash(s) := existing + [|lockSets|]];
    assert forall i :: 0 <= i < |lockSets| ==> l[i] == lockSets[i];
    forall h, k | h in m && 0 <= k < |m[h]|
      ensures m[h][k] < |l| && hash(l[m[h][k]]) == h
    {
      if h == hash(s) && k == |existing| {
        assert m[h][k] == |lockSets|;
      } else if h == hash(s) {
        assert m[h][k] == hashToIndices[h][k];
      }
    }
    forall i | 0 <= i < |l|
      ensures hash(l[i]) in m && i in m[hash(l[i])]
    {
      if i == |lockSets| {
        assert m[hash(s)][|existing|] == i;
      } else if hash(l[i]) == hash(s) {
        var k :| 0 <= k < |existing| && existing[k] == i;
        assert m[hash(s)][k] == i;
      }
    }
  }

  /**
   * The table. `lockSets` holds every interned set; `hashToIndices` lists,
   * for each hash, the indices of the sets with that hash; the three caches
   * remember the results of Intersect, Add and Remove. The hash is
   * System.HashCode over the lock ids, randomly seeded per process, so it is
   * a parameter of the table.
   */
  class LockSetTable {
    const hash: seq<LockId> -> int
    var lockSets: seq<seq<LockId>>
    var hashToIndices: map<int, seq<LockSetIndex>>
    var intersectionCache: map<(LockSetIndex, LockSetIndex), LockSetIndex>
    var addCache: map<(LockSetIndex, LockId), LockSetIndex>
    var removeCache: map<(LockSetIndex, LockId), LockSetIndex>

    /**
     * Index 0 is the empty set; every set is sorted and stored once; the
     * hash index finds every set under its hash and nothing else; and every
     * cached result names the set its operation yields.
     */
    ghost predicate Valid()
      reads this
    {
      && SetsOk(lockSets)
      && HashOk(hash, lockSets, hashToIndices)
      && IntersectionCacheOk(lockSets, intersectionCache)
      && AddCacheOk(lockSets, addCache)
      && RemoveCacheOk(lockSets, removeCache)
    }

    /** The number of interned sets. */
    function Count(): nat
      reads this
    {
      |lockSets|
    }

    /** A table holding only the empty set, at index 0. */
    constructor (hash: seq<LockId> -> int)
      ensures Valid() && this.hash == hash
      ensures lockSets == [[]]
    {
      this.hash := hash;
      lockSets := [[]];
      hashToIndices := map[hash([]) := [Empty]];
      intersectionCache := map[];
      addCache := map[];
      removeCache := map[];
    }

    /**
     * The index of the intersection: the empty set when either operand is
     * empty, the operand itself for a set intersected with itself, and
     * otherwise the cached or newly interned intersection.
     */
    method Intersect(first: LockSetIndex, second: LockSetIndex) returns (r: LockSetIndex)
      requires Valid() && first < |lockSets| && second < |lockSets|
      modifies this
      ensures Valid() && Extends(old(lockSets))
      ensures r < |lockSets| && Elems(lockSets[r]) == Elems(lockSets[first]) * Elems(lockSets[second])
      ensures (first == Empty || second == Empty) ==> r == Empty
      ensures first == second ==> r == first
    {
      if first == Empty || second == Empty {
        assert lockSets[Empty] == [];
        return Empty;
      }
      if first == second {
        return first;
      }
      var cacheKey := if first <= second then (first, second) else (second, first);
      if cacheKey in intersectionCache {
        return intersectionCache[cacheKey];
      }
      r := ComputeIntersection(first, second);
      IntersectionCacheAdd(lockSets, intersectionCache, cacheKey, r);
      intersectionCache := intersectionCache[cacheKey := r];
    }

    /** The index of the set with one more lock; the same index when the lock is already in it. */
    method Add(index: LockSetIndex, lockId: LockId) returns (r: LockSetIndex)
      requires Valid() && index < |lockSets|
      modifies this
      ensures Valid() && Extends(old(lockSets))
      ensures r < |lockSets| && Elems(lockSets[r]) == Elems(lockSets[index]) + {lockId}
      ensures lockId in lockSets[index] ==> r == index
    {
      var cacheKey := (index, lockId);
      if cacheKey in addCache {
        r := addCache[cacheKey];
        if lockId in lockSets[index] {
          InternedUnique(r, index);
        }
        return r;
      }
      var existing := lockSets[index];
      var insertionPoint := BinarySearch(existing, lockId);
      if insertionPoint >= 0 {
        assert Elems(existing) + {lockId} == Elems(existing);
        r := index;
      } else {
        var newSet := CreateWithInsertion(existing, lockId, Complement(insertionPoint));
        r := GetOrCreateInternal(newSet);
      }
      AddCacheAdd(lockSets, addCache, cacheKey, r);
      addCache := addCache[cacheKey := r];
    }

    /** The index of the set with one lock fewer; the same index when the set is empty or lacks the lock. */
    method Remove(index: LockSetIndex, lockId: LockId) returns (r: LockSetIndex)
      requires Valid() && index < |lockSets|
      modifies this
      ensures Valid() && Extends(old(lockSets))
      ensures r < |lockSets| && Elems(lockSets[r]) == Elems(lockSets[index]) - {lockId}
      ensures (index == Empty || lockId !in lockSets[index]) ==> r == index
    {
      if index == Empty {
        assert lockSets[Empty] == [];
        return index;
      }
      var cacheKey := (index, lockId);
      if cacheKey in removeCache {
        r := removeCache[cacheKey];
        if lockId !in lockSets[index] {
          InternedUnique(r, index);
        }
        return r;
      }
      r := ComputeRemove(index, lockId);
      RemoveCacheAdd(lockSets, removeCache, cacheKey, r);
      removeCache := removeCache[cacheKey := r];
    }

    /** Remove past its cache: the set without the lock, interned, or the same index when the lock is missing. */
    method ComputeRemove(index: LockSetIndex, lockId: LockId) returns (r: LockSetIndex)
      requires Valid() && index < |lockSets|
      modifies this`lockSets, this`hashToIndices
      ensures Valid() && Extends(old(lockSets))
      ensures r < |lockSets| && Elems(lockSets[r]) == Elems(lockSets[index]) - {lockId}
      ensures lockId !in lockSets[index] ==> r == index
    {
      var existing := lockSets[index];
      var removeIndex := BinarySearch(existing, lockId);
      if removeIndex < 0 {
        assert Elems(existing) - {lockId} == Elems(existing);
        r := index;
      } else {
        var newSet := CreateWithRemoval(existing, removeIndex);
        r := GetOrCreateInternal(newSet);
      }
    }

    /** Intersect past its cache: the intersection of two stored sets, interned. */
    method ComputeIntersection(first: LockSetIndex, second: LockSetIndex) returns (r: LockSetIndex)
      requires Valid() && first < |lockSets| && second < |lockSets|
      modifies this`lockSets, this`hashToIndices
      ensures Valid() && Extends(old(lockSets))
      ensures r < |lockSets| && Elems(lockSets[r]) == Elems(lockSets[first]) * Elems(lockSets[second])
    {
      var setA := lockSets[first];
      var setB := lockSets[second];
      var intersection := SortedIntersection(setA, setB);
      r := GetOrCreateInternal(intersection);
    }

    /** The table keeps every set it had, at its index, and gains at most one. */
    ghost predicate Extends(before: seq<seq<LockId>>)
      reads this
    {
      |before| <= |lockSets| <= |before| + 1 && lockSets[..|before|] == before
    }

    /**
     * Interns a sorted set: the index of the equal stored set, found among
     * the indices of its hash, or else a new index at the end of the table.
     */
    method GetOrCreateInternal(sortedLocks: seq<LockId>) returns (r: LockSetIndex)
      requires Valid() && Sorted(sortedLocks)
      modifies this`lockSets, this`hashToIndices
      ensures Valid()
      ensures r < |lockSets| && lockSets[r] == sortedLocks
      ensures sortedLocks in old(lockSets) ==> lockSets == old(lockSets)
      ensures sortedLocks !in old(lockSets) ==> lockSets == old(lockSets) + [sortedLocks]
      ensures Extends(old(lockSets))
    {
      var h := hash(sortedLocks);
      var existingIndices: seq<LockSetIndex> := [];
      if h in hashToIndices {
        existingIndices := hashToIndices[h];
        var i := 0;
        while i < |existingIndices|
          invariant 0 <= i <= |existingIndices|
          invariant forall k :: 0 <= k < i ==> lockSets[existingIndices[k]] != sortedLocks
        {
          if lockSets[existingIndices[i]] == sortedLocks {
            return existingIndices[i];
          }
          i := i + 1;
        }
      }
      assert forall j :: 0 <= j < |lockSets| && hash(lockSets[j]) == h ==> j in existingIndices;
      assert sortedLocks !in lockSets;
      AppendKeepsCaches(lockSets, sortedLocks, intersectionCache, addCache, removeCache);
      AppendKeepsHash(hash, lockSets, hashToIndices, sortedLocks, existingIndices);
      r := |lockSets|;
      lockSets := lockSets + [sortedLocks];
      hashToIndices := hashToIndices[h := existingIndices + [r]];
    }

    /** Interning: two indices whose sets hold the same locks are the same index. */
    lemma InternedUnique(i: LockSetIndex, j: LockSetIndex)
      requires Valid() && i < |lockSets| && j < |lockSets|
      requires Elems(lockSets[i]) == Elems(lockSets[j])
      ensures i == j
    {
      SortedUnique(lockSets[i], lockSets[j]);
    }

    /** Only index 0 names the empty set. */
    lemma EmptyOnlyAtZero(i: LockSetIndex)
      requires Valid() && i < |lockSets|
      ensures lockSets[i] == [] <==> i == Empty
    {
      assert i != Empty ==> lockSets[Empty] != lockSets[i];
    }
  }
}
