/**
 * Tarjan's strongly connected components algorithm over a wait-for graph:
 * reachability, the invariant of its bookkeeping, and the lemmas that the
 * steps of the algorithm (push, lower a lowlink, pop a component) keep it.
 */
module Tarjan {
  import opened Models

  type P = ProcessThreadId

  /** The successors of every thread of the graph. */
  type Graph = map<P, set<P>>

  function Elems<T>(s: seq<T>): set<T>
  {
    set x | x in s
  }

  ghost predicate Distinct<T>(s: seq<T>)
  {
    forall i, j :: 0 <= i < j < |s| ==> s[i] != s[j]
  }

  // ---------------------------------------------------------------------
  // Reachability

  /** A walk along wait-for edges. */
  ghost predicate IsPath(g: Graph, p: seq<P>)
    decreases |p|
  {
    |p| >= 1 && (|p| == 1 || (p[0] in g && p[1] in g[p[0]] && IsPath(g, p[1..])))
  }

  ghost predicate Reaches(g: Graph, a: P, b: P)
  {
    exists p :: IsPath(g, p) && p[0] == a && p[|p| - 1] == b
  }

  /** Every member of the set reaches every other: the threads wait for one another in a cycle. */
  ghost predicate StronglyConnected(g: Graph, s: seq<P>)
  {
    forall x, y :: x in s && y in s ==> Reaches(g, x, y)
  }

  lemma ReachesRefl(g: Graph, a: P)
    ensures Reaches(g, a, a)
  {
    assert IsPath(g, [a]);
  }

  lemma ReachesStep(g: Graph, a: P, b: P, c: P)
    requires a in g && b in g[a] && Reaches(g, b, c)
    ensures Reaches(g, a, c)
  {
    var p :| IsPath(g, p) && p[0] == b && p[|p| - 1] == c;
    var q := [a] + p;
    assert q[1..] == p;
    assert IsPath(g, q) && q[0] == a && q[|q| - 1] == c;
  }

  /** Two walks that meet join into one. */
  lemma {:induction false} PathJoin(g: Graph, p: seq<P>, q: seq<P>)
    requires IsPath(g, p) && IsPath(g, q) && p[|p| - 1] == q[0]
    ensures IsPath(g, p + q[1..])
    decreases |p|
  {
    if |p| == 1 {
      assert p + q[1..] == q;
    } else {
      PathJoin(g, p[1..], q);
      assert (p + q[1..])[1..] == p[1..] + q[1..];
    }
  }

  lemma ReachesTrans(g: Graph, a: P, b: P, c: P)
    requires Reaches(g, a, b) && Reaches(g, b, c)
    ensures Reaches(g, a, c)
  {
    var p :| IsPath(g, p) && p[0] == a && p[|p| - 1] == b;
    var q :| IsPath(g, q) && q[0] == b && q[|q| - 1] == c;
    PathJoin(g, p, q);
    var r := p + q[1..];
    assert r[0] == a && r[|r| - 1] == c;
  }

  // ---------------------------------------------------------------------
  // The components found so far

  ghost function Union(ss: seq<seq<ProcessThreadId>>): set<ProcessThreadId>
    decreases |ss|
  {
    if ss == [] then {} else Union(ss[..|ss| - 1]) + Elems(ss[|ss| - 1])
  }

  lemma UnionAppend(ss: seq<seq<ProcessThreadId>>, s: seq<ProcessThreadId>)
    ensures Union(ss + [s]) == Union(ss) + Elems(s)
  {
    assert (ss + [s])[..|ss|] == ss;
  }

  lemma {:induction false} InUnion(ss: seq<seq<ProcessThreadId>>, k: nat)
    requires k < |ss|
    ensures Elems(ss[k]) <= Union(ss)
    decreases |ss|
  {
    if k < |ss| - 1 {
      InUnion(ss[..|ss| - 1], k);
    }
  }

  ghost predicate PairwiseDisjoint(ss: seq<seq<ProcessThreadId>>)
  {
    forall i, j :: 0 <= i < j < |ss| ==> Elems(ss[i]) !! Elems(ss[j])
  }

  /** A component popped at its root, the last node popped: the root reaches every member and every member the root. */
  ghost predicate SccOk(g: Graph, scc: seq<ProcessThreadId>)
  {
    && |scc| >= 1 && Distinct(scc)
    && forall x :: x in scc ==> Reaches(g, scc[|scc| - 1], x) && Reaches(g, x, scc[|scc| - 1])
  }

  lemma SccStronglyConnected(g: Graph, scc: seq<ProcessThreadId>)
    requires SccOk(g, scc)
    ensures StronglyConnected(g, scc)
  {
    var root := scc[|scc| - 1];
    forall x, y | x in scc && y in scc
      ensures Reaches(g, x, y)
    {
      ReachesTrans(g, x, root, y);
    }
  }

  // ---------------------------------------------------------------------
  // Tarjan's invariant, one part at a time

  /** Every indexed node is a node of the graph and has a lowlink. */
  ghost predicate KeysOk(g: Graph, idx: map<P, nat>, low: map<P, nat>)
  {
    idx.Keys <= g.Keys && low.Keys == idx.Keys
  }

  /** Every index handed out is below the counter. */
  ghost predicate IndicesOk(idx: map<P, nat>, counter: nat)
  {
    forall x :: x in idx ==> idx[x] < counter
  }

  /**
   * The stack holds indexed nodes, `onStack` is its set, and each node on it
   * has a witness: the position on the stack of a node it reaches.
   */
  ghost predicate ShapeOk(idx: map<P, nat>, stack: seq<P>, onStack: set<P>, wit: map<P, nat>)
  {
    && onStack == Elems(stack)
    && (forall x {:trigger x in onStack} :: x in onStack ==> x in idx && x in wit)
    && (forall i :: 0 <= i < |stack| ==> stack[i] in idx && stack[i] in wit)
  }

  /** The nodes lie on the stack in the order of their indices. */
  ghost predicate OrderOk(idx: map<P, nat>, stack: seq<P>)
    decreases |stack|
  {
    |stack| <= 1 || (stack[0] in idx && stack[1] in idx && idx[stack[0]] < idx[stack[1]] && OrderOk(idx, stack[1..]))
  }

  lemma {:induction false} OrderPair(idx: map<P, nat>, stack: seq<P>, i: nat, j: nat)
    requires OrderOk(idx, stack) && i < j < |stack|
    ensures stack[i] in idx && stack[j] in idx && idx[stack[i]] < idx[stack[j]]
    decreases j
  {
    if i > 0 {
      OrderPair(idx, stack[1..], i - 1, j - 1);
    } else if j > 1 {
      OrderPair(idx, stack[1..], 0, j - 1);
    }
  }

  lemma {:induction false} OrderPrefix(idx: map<P, nat>, stack: seq<P>, p: nat)
    requires OrderOk(idx, stack) && p <= |stack|
    ensures OrderOk(idx, stack[..p])
    decreases p
  {
    if p >= 2 {
      OrderPrefix(idx, stack[1..], p - 1);
      assert stack[..p][1..] == stack[1..][..p - 1];
    }
  }

  /**
   * Each node on the stack reaches the node at its witness position, whose
   * index is the node's lowlink, at most the node's own index.
   */
  ghost predicate LowOk(g: Graph, idx: map<P, nat>, low: map<P, nat>, stack: seq<P>, onStack: set<P>, wit: map<P, nat>)
  {
    forall x {:trigger x in onStack} :: x in onStack && x in idx && x in low && x in wit ==>
      && wit[x] < |stack| && stack[wit[x]] in idx
      && low[x] <= idx[x] && idx[stack[wit[x]]] == low[x] && Reaches(g, x, stack[wit[x]])
  }

  /** `x` has an index; stated apart so that coverage is used only where it is asked for. */
  ghost predicate Indexed(idx: map<P, nat>, x: P)
  {
    x in idx
  }

  /** The indexed nodes are those on the stack and those in an emitted component, and none is in both. */
  ghost predicate CoverOk(idx: map<P, nat>, stack: seq<P>, emitted: seq<seq<P>>)
  {
    && Elems(stack) + Union(emitted) <= idx.Keys && Elems(stack) !! Union(emitted)
    && forall x {:trigger Indexed(idx, x)} :: Indexed(idx, x) ==> x in stack || x in Union(emitted)
  }

  /** The emitted components are disjoint and strongly connected. */
  ghost predicate EmittedOk(g: Graph, emitted: seq<seq<P>>)
  {
    PairwiseDisjoint(emitted) && forall k :: 0 <= k < |emitted| ==> SccOk(g, emitted[k])
  }

  ghost predicate TarjanOk(g: Graph, idx: map<P, nat>, low: map<P, nat>, counter: nat,
      stack: seq<P>, onStack: set<P>, wit: map<P, nat>, emitted: seq<seq<P>>)
  {
    && KeysOk(g, idx, low) && IndicesOk(idx, counter)
    && ShapeOk(idx, stack, onStack, wit) && OrderOk(idx, stack) && LowOk(g, idx, low, stack, onStack, wit)
    && CoverOk(idx, stack, emitted) && EmittedOk(g, emitted)
  }

  /**
   * The nodes pushed above v while v's call runs and left on the stack: v
   * reaches each, each was indexed after v, its own call found it is not a
   * root, and its lowlink is no smaller than v's.
   */
  ghost predicate Above(g: Graph, idx: map<P, nat>, low: map<P, nat>, v: P, seg: seq<P>)
  {
    && v in idx && v in low
    && forall x {:trigger x in seg} :: x in seg ==>
         x in idx && x in low && idx[x] > idx[v] && low[x] < idx[x] && low[v] <= low[x] && Reaches(g, v, x)
  }

  /**
   * What a call for v leaves on the stack: nothing, when v is a root, or v,
   * not a root, and the nodes above it.
   */
  ghost predicate Ext(g: Graph, idx: map<P, nat>, low: map<P, nat>, v: P, ext: seq<P>)
  {
    && v in idx && v in low
    && if ext == [] then low[v] == idx[v] else ext[0] == v && low[v] < idx[v] && Above(g, idx, low, v, ext[1..])
  }

  /** A node that is not a root stays on the stack with the nodes above it. */
  lemma NotRoot(g: Graph, idx: map<P, nat>, low: map<P, nat>, stack: seq<P>, p: nat)
    requires p < |stack| && stack[p] in idx && stack[p] in low && low[stack[p]] < idx[stack[p]]
    requires Above(g, idx, low, stack[p], stack[p + 1..])
    ensures Ext(g, idx, low, stack[p], stack[p..])
  {
    assert stack[p..][1..] == stack[p + 1..];
  }

  /** The entries of nodes indexed before are kept. */
  ghost predicate Kept(idx0: map<P, nat>, low0: map<P, nat>, idx: map<P, nat>, low: map<P, nat>)
  {
    forall x {:trigger x in idx0} :: x in idx0 ==> x in idx && idx[x] == idx0[x] && x in low && x in low0 && low[x] == low0[x]
  }

  /** The nodes still to index shrink once v, unindexed before, is indexed. */
  lemma IndexedMore(keys: set<P>, i0: map<P, nat>, l0: map<P, nat>, i1: map<P, nat>, l1: map<P, nat>, v: P)
    requires Kept(i0, l0, i1, l1) && v in keys && v in i1 && v !in i0
    ensures keys - i1.Keys < keys - i0.Keys
  {
    assert v in keys - i0.Keys && v !in keys - i1.Keys;
  }

  lemma ConcatAssoc(a: seq<seq<P>>, b: seq<seq<P>>, c: seq<seq<P>>)
    ensures (a + b) + c == a + (b + c)
  {
  }

  function Min(a: nat, b: nat): nat
  {
    if a <= b then a else b
  }

  lemma AppendElems(s: seq<P>, v: P)
    ensures Elems(s + [v]) == Elems(s) + {v}
  {
    assert forall x :: x in s + [v] <==> x in s || x == v;
  }

  lemma PushShape(idx: map<P, nat>, stack: seq<P>, onStack: set<P>, wit: map<P, nat>, v: P, c: nat)
    requires ShapeOk(idx, stack, onStack, wit) && v !in idx
    ensures ShapeOk(idx[v := c], stack + [v], onStack + {v}, wit[v := |stack|])
  {
    AppendElems(stack, v);
  }

  lemma {:induction false} PushOrder(idx: map<P, nat>, stack: seq<P>, v: P, c: nat)
    requires OrderOk(idx, stack) && (forall x :: x in idx ==> idx[x] < c) && v !in idx
    requires forall i :: 0 <= i < |stack| ==> stack[i] in idx
    ensures OrderOk(idx[v := c], stack + [v])
    decreases |stack|
  {
    if |stack| >= 2 {
      PushOrder(idx, stack[1..], v, c);
      assert (stack + [v])[1..] == stack[1..] + [v];
    } else if |stack| == 1 {
      assert (stack + [v])[1..] == [v];
    }
  }

  lemma PushLow(g: Graph, idx: map<P, nat>, low: map<P, nat>, stack: seq<P>, onStack: set<P>, wit: map<P, nat>, v: P, c: nat)
    requires LowOk(g, idx, low, stack, onStack, wit) && v !in idx
    requires forall x :: x in onStack ==> x in idx && x in wit
    ensures LowOk(g, idx[v := c], low[v := c], stack + [v], onStack + {v}, wit[v := |stack|])
  {
    var idx', low', stack', wit' := idx[v := c], low[v := c], stack + [v], wit[v := |stack|];
    forall x | x in onStack + {v} && x in idx' && x in low' && x in wit'
      ensures wit'[x] < |stack'| && stack'[wit'[x]] in idx'
      ensures low'[x] <= idx'[x] && idx'[stack'[wit'[x]]] == low'[x] && Reaches(g, x, stack'[wit'[x]])
    {
      if x == v {
        assert stack'[wit'[x]] == v;
        ReachesRefl(g, v);
      } else {
        assert x in onStack;
        assert stack'[wit'[x]] == stack[wit[x]];
      }
    }
  }

  lemma PushCover(idx: map<P, nat>, stack: seq<P>, emitted: seq<seq<P>>, v: P, c: nat)
    requires CoverOk(idx, stack, emitted) && v !in idx
    ensures CoverOk(idx[v := c], stack + [v], emitted)
  {
    AppendElems(stack, v);
    forall x | Indexed(idx[v := c], x)
      ensures x in stack + [v] || x in Union(emitted)
    {
      if x != v {
        assert Indexed(idx, x);
      }
    }
  }

  lemma PushIndices(g: Graph, idx: map<P, nat>, low: map<P, nat>, counter: nat, v: P)
    requires KeysOk(g, idx, low) && IndicesOk(idx, counter) && v in g && v !in idx
    ensures KeysOk(g, idx[v := counter], low[v := counter]) && IndicesOk(idx[v := counter], counter + 1)
  {
  }

  /** Indexing a new node and pushing it keeps the invariant. */
  lemma PushStep(g: Graph, idx: map<P, nat>, low: map<P, nat>, counter: nat,
      stack: seq<P>, onStack: set<P>, wit: map<P, nat>, emitted: seq<seq<P>>, v: P)
    requires TarjanOk(g, idx, low, counter, stack, onStack, wit, emitted)
    requires v in g && v !in idx
    ensures TarjanOk(g, idx[v := counter], low[v := counter], counter + 1, stack + [v], onStack + {v}, wit[v := |stack|], emitted)
  {
    PushIndices(g, idx, low, counter, v);
    PushShape(idx, stack, onStack, wit, v, counter);
    assert forall i :: 0 <= i < |stack| ==> stack[i] in onStack;
    PushOrder(idx, stack, v, counter);
    PushLow(g, idx, low, stack, onStack, wit, v, counter);
    PushCover(idx, stack, emitted, v, counter);
  }

  lemma LowerLow(g: Graph, idx: map<P, nat>, low: map<P, nat>, stack: seq<P>, onStack: set<P>, wit: map<P, nat>, v: P, m: nat, q: nat)
    requires LowOk(g, idx, low, stack, onStack, wit)
    requires v in onStack && v in idx && v in low && v in wit
    requires m < low[v] ==> q < |stack| && stack[q] in idx && idx[stack[q]] == m && Reaches(g, v, stack[q])
    ensures LowOk(g, idx, low[v := Min(low[v], m)], stack, onStack, if m < low[v] then wit[v := q] else wit)
  {
  }

  lemma LowerShape(g: Graph, idx: map<P, nat>, low: map<P, nat>, stack: seq<P>, onStack: set<P>, wit: map<P, nat>, v: P, m: nat, q: nat)
    requires KeysOk(g, idx, low) && ShapeOk(idx, stack, onStack, wit) && v in onStack
    ensures KeysOk(g, idx, low[v := Min(low[v], m)])
    ensures ShapeOk(idx, stack, onStack, if m < low[v] then wit[v := q] else wit)
  {
  }

  /**
   * Lowering the lowlink of a node on the stack to the index of the node at
   * position q of the stack, which it reaches, keeps the invariant.
   */
  lemma LowerStep(g: Graph, idx: map<P, nat>, low: map<P, nat>, counter: nat,
      stack: seq<P>, onStack: set<P>, wit: map<P, nat>, emitted: seq<seq<P>>, v: P, m: nat, q: nat)
    requires TarjanOk(g, idx, low, counter, stack, onStack, wit, emitted)
    requires v in onStack
    requires m < low[v] ==> q < |stack| && idx[stack[q]] == m && Reaches(g, v, stack[q])
    ensures TarjanOk(g, idx, low[v := Min(low[v], m)], counter, stack, onStack, if m < low[v] then wit[v := q] else wit, emitted)
  {
    LowerShape(g, idx, low, stack, onStack, wit, v, m, q);
    LowerLow(g, idx, low, stack, onStack, wit, v, m, q);
  }

  /** After a child's call, the child and what it left on the stack join the nodes above v. */
  lemma ChildStep(g: Graph, idx1: map<P, nat>, low1: map<P, nat>, idx2: map<P, nat>, low2: map<P, nat>,
      v: P, c: P, seg: seq<P>, ext: seq<P>)
    requires v in g && c in g[v]
    requires Above(g, idx1, low1, v, seg) && Kept(idx1, low1, idx2, low2)
    requires c in idx2 && c in low2 && idx2[c] > idx1[v]
    requires Ext(g, idx2, low2, c, ext)
    ensures Above(g, idx2, low2[v := Min(low2[v], low2[c])], v, seg + ext)
  {
    var low3 := low2[v := Min(low2[v], low2[c])];
    forall x | x in seg + ext
      ensures x in idx2 && x in low3 && idx2[x] > idx2[v] && low3[x] < idx2[x] && low3[v] <= low3[x] && Reaches(g, v, x)
    {
      if x in seg {
        assert x != v;
      } else {
        if x != c {
          assert x in ext[1..];
        }
        ReachesRefl(g, c);
        ReachesStep(g, v, c, x);
      }
    }
  }

  /** Lowering v's lowlink keeps the nodes above it above it. */
  lemma AboveLower(g: Graph, idx: map<P, nat>, low: map<P, nat>, v: P, seg: seq<P>, m: nat)
    requires Above(g, idx, low, v, seg)
    ensures Above(g, idx, low[v := Min(low[v], m)], v, seg)
  {
    forall x | x in seg
      ensures x != v
    {
    }
  }

  /** Every node above a root reaches the root through the chain of witnesses. */
  lemma {:induction false} ChainToRoot(g: Graph, idx: map<P, nat>, low: map<P, nat>, stack: seq<P>, wit: map<P, nat>, p: nat, q: nat)
    requires ShapeOk(idx, stack, Elems(stack), wit) && OrderOk(idx, stack) && LowOk(g, idx, low, stack, Elems(stack), wit)
    requires p <= q < |stack| && stack[p] in low && low[stack[p]] == idx[stack[p]]
    requires Above(g, idx, low, stack[p], stack[p + 1..])
    ensures Reaches(g, stack[q], stack[p])
    decreases q
  {
    if q == p {
      ReachesRefl(g, stack[p]);
    } else {
      var x := stack[q];
      assert x in stack[p + 1..];
      assert x in Elems(stack);
      var q' := wit[x];
      assert q' < |stack| && idx[stack[q']] == low[x];
      if q' > q {
        OrderPair(idx, stack, q, q');
      }
      if q' < p {
        OrderPair(idx, stack, q', p);
      }
      ChainToRoot(g, idx, low, stack, wit, p, q');
      ReachesTrans(g, x, stack[q'], stack[p]);
    }
  }

  /** The witness of a node below position p is below p too. */
  lemma WitnessBelow(g: Graph, idx: map<P, nat>, low: map<P, nat>, stack: seq<P>, wit: map<P, nat>, p: nat, r: nat)
    requires ShapeOk(idx, stack, Elems(stack), wit) && OrderOk(idx, stack) && LowOk(g, idx, low, stack, Elems(stack), wit)
    requires forall x :: x in stack ==> x in low
    requires r < p <= |stack|
    ensures stack[r] in wit && wit[stack[r]] < p
  {
    var x := stack[r];
    assert x in Elems(stack);
    var q := wit[x];
    assert q < |stack| && idx[stack[q]] == low[x];
    if q > r {
      OrderPair(idx, stack, r, q);
    }
  }

  /** Nodes in increasing order of index are distinct. */
  lemma OrderDistinct(idx: map<P, nat>, stack: seq<P>)
    requires OrderOk(idx, stack) && forall i :: 0 <= i < |stack| ==> stack[i] in idx
    ensures Distinct(stack)
  {
    forall i, j | 0 <= i < j < |stack|
      ensures stack[i] != stack[j]
    {
      OrderPair(idx, stack, i, j);
    }
  }

  /** The popped segment, read from the top down, and what stays below it. */
  lemma PopElems(stack: seq<P>, p: nat, scc: seq<P>)
    requires Distinct(stack) && p < |stack|
    requires |scc| == |stack| - p && forall i :: 0 <= i < |scc| ==> scc[i] == stack[|stack| - 1 - i]
    ensures Elems(scc) == Elems(stack[p..]) && Elems(stack) == Elems(stack[..p]) + Elems(scc)
    ensures Elems(stack[..p]) !! Elems(scc) && Distinct(scc) && Distinct(stack[..p])
    ensures scc[|scc| - 1] == stack[p]
  {
    ReversedElems(stack, p, scc);
    SplitElems(stack, p);
  }

  /** The popped nodes, top first, are the nodes from p up, without repeats. */
  lemma ReversedElems(stack: seq<P>, p: nat, scc: seq<P>)
    requires Distinct(stack) && p < |stack|
    requires |scc| == |stack| - p && forall i :: 0 <= i < |scc| ==> scc[i] == stack[|stack| - 1 - i]
    ensures Elems(scc) == Elems(stack[p..]) && Distinct(scc)
  {
    forall x | x in stack[p..]
      ensures x in scc
    {
      var q :| 0 <= q < |stack| - p && stack[p..][q] == x;
      assert scc[|stack| - 1 - (p + q)] == x;
    }
  }

  /** Splitting a stack of distinct nodes at p gives two disjoint parts. */
  lemma SplitElems(stack: seq<P>, p: nat)
    requires Distinct(stack) && p <= |stack|
    ensures Elems(stack) == Elems(stack[..p]) + Elems(stack[p..])
    ensures Elems(stack[..p]) !! Elems(stack[p..]) && Distinct(stack[..p])
  {
    assert stack == stack[..p] + stack[p..];
    forall x | x in stack[..p]
      ensures x !in stack[p..]
    {
      var r :| 0 <= r < p && stack[..p][r] == x;
      assert stack[r] == x;
    }
  }


  lemma PopShape(g: Graph, idx: map<P, nat>, low: map<P, nat>, stack: seq<P>, wit: map<P, nat>, p: nat)
    requires ShapeOk(idx, stack, Elems(stack), wit) && OrderOk(idx, stack) && LowOk(g, idx, low, stack, Elems(stack), wit)
    requires forall x :: x in stack ==> x in low
    requires p <= |stack|
    ensures ShapeOk(idx, stack[..p], Elems(stack[..p]), wit) && OrderOk(idx, stack[..p])
    ensures LowOk(g, idx, low, stack[..p], Elems(stack[..p]), wit)
  {
    forall x | x in Elems(stack[..p])
      ensures x in idx && x in wit && x in low && wit[x] < p && stack[..p][wit[x]] == stack[wit[x]]
      ensures stack[wit[x]] in idx && low[x] <= idx[x] && idx[stack[wit[x]]] == low[x] && Reaches(g, x, stack[wit[x]])
    {
      var r :| 0 <= r < p && stack[..p][r] == x;
      assert stack[r] == x;
      assert x in Elems(stack);
      WitnessBelow(g, idx, low, stack, wit, p, r);
    }
    forall i | 0 <= i < p
      ensures stack[..p][i] in idx && stack[..p][i] in wit
    {
      assert stack[..p][i] == stack[i];
    }
    OrderPrefix(idx, stack, p);
  }

  lemma PopEmitted(g: Graph, idx: map<P, nat>, stack: seq<P>, emitted: seq<seq<P>>, p: nat, scc: seq<P>)
    requires CoverOk(idx, stack, emitted) && EmittedOk(g, emitted) && SccOk(g, scc)
    requires p <= |stack| && Elems(stack) == Elems(stack[..p]) + Elems(scc) && Elems(stack[..p]) !! Elems(scc)
    ensures CoverOk(idx, stack[..p], emitted + [scc]) && EmittedOk(g, emitted + [scc])
  {
    UnionAppend(emitted, scc);
    forall k | 0 <= k < |emitted|
      ensures Elems((emitted + [scc])[k]) !! Elems(scc)
    {
      InUnion(emitted, k);
    }
  }

  lemma PopScc(g: Graph, idx: map<P, nat>, low: map<P, nat>, stack: seq<P>, wit: map<P, nat>, p: nat, scc: seq<P>)
    requires ShapeOk(idx, stack, Elems(stack), wit) && OrderOk(idx, stack) && LowOk(g, idx, low, stack, Elems(stack), wit)
    requires p < |stack| && stack[p] in low && low[stack[p]] == idx[stack[p]]
    requires Above(g, idx, low, stack[p], stack[p + 1..])
    requires |scc| == |stack| - p && forall i :: 0 <= i < |scc| ==> scc[i] == stack[|stack| - 1 - i]
    requires Distinct(scc)
    ensures SccOk(g, scc)
  {
    var root := stack[p];
    assert scc[|scc| - 1] == root;
    forall i | 0 <= i < |scc|
      ensures Reaches(g, root, scc[i]) && Reaches(g, scc[i], root)
    {
      var q := |stack| - 1 - i;
      assert scc[i] == stack[q];
      ChainToRoot(g, idx, low, stack, wit, p, q);
      if q == p {
        ReachesRefl(g, root);
      } else {
        assert stack[p + 1..][q - p - 1] == stack[q];
        assert stack[q] in stack[p + 1..];
      }
    }
    forall x | x in scc
      ensures Reaches(g, root, x) && Reaches(g, x, root)
    {
      var i :| 0 <= i < |scc| && scc[i] == x;
    }
  }

  /** Popping a root and everything above it emits a strongly connected component and keeps the invariant. */
  lemma PopStep(g: Graph, idx: map<P, nat>, low: map<P, nat>, counter: nat,
      stack: seq<P>, wit: map<P, nat>, emitted: seq<seq<P>>, p: nat, scc: seq<P>)
    requires TarjanOk(g, idx, low, counter, stack, Elems(stack), wit, emitted)
    requires p < |stack| && low[stack[p]] == idx[stack[p]]
    requires Above(g, idx, low, stack[p], stack[p + 1..])
    requires |scc| == |stack| - p && forall i :: 0 <= i < |scc| ==> scc[i] == stack[|stack| - 1 - i]
    ensures TarjanOk(g, idx, low, counter, stack[..p], Elems(stack[..p]), wit, emitted + [scc])
  {
    OrderDistinct(idx, stack);
    PopElems(stack, p, scc);
    PopScc(g, idx, low, stack, wit, p, scc);
    PopShape(g, idx, low, stack, wit, p);
    PopEmitted(g, idx, stack, emitted, p, scc);
  }

  /**
   * The node at the bottom of the stack is a root: its lowlink is the index
   * of a node at or above it, none of which has a smaller index.
   */
  lemma BottomIsRoot(g: Graph, idx: map<P, nat>, low: map<P, nat>, counter: nat,
      stack: seq<P>, onStack: set<P>, wit: map<P, nat>, emitted: seq<seq<P>>)
    requires TarjanOk(g, idx, low, counter, stack, onStack, wit, emitted) && |stack| > 0
    ensures stack[0] in idx && stack[0] in low && low[stack[0]] >= idx[stack[0]]
  {
    var x := stack[0];
    assert x in onStack;
    if wit[x] > 0 {
      OrderPair(idx, stack, 0, wit[x]);
    }
  }

  /** Once the stack is empty, the emitted components hold exactly the indexed nodes. */
  lemma AllEmitted(g: Graph, idx: map<P, nat>, low: map<P, nat>, counter: nat,
      onStack: set<P>, wit: map<P, nat>, emitted: seq<seq<P>>)
    requires TarjanOk(g, idx, low, counter, [], onStack, wit, emitted)
    ensures Union(emitted) == idx.Keys
  {
    forall x | x in idx
      ensures x in Union(emitted)
    {
      assert Indexed(idx, x);
    }
  }

  /** A component emitted so far is strongly connected and made of indexed nodes. */
  lemma EmittedPrefix(g: Graph, idx: map<P, nat>, stack: seq<P>, emitted: seq<seq<P>>, k: nat)
    requires CoverOk(idx, stack, emitted) && EmittedOk(g, emitted) && k < |emitted|
    ensures SccOk(g, emitted[k]) && Elems(emitted[k]) <= idx.Keys
  {
    InUnion(emitted, k);
  }

  /** Popping the top of a prefix of a stack of distinct nodes removes exactly that node, and it is the root at p only at p. */
  lemma PopOne(full: seq<ProcessThreadId>, stack: seq<ProcessThreadId>, p: nat)
    requires Distinct(full) && p < |stack| <= |full| && stack == full[..|stack|]
    ensures Elems(stack[..|stack| - 1]) == Elems(stack) - {stack[|stack| - 1]}
    ensures stack[..|stack| - 1] == full[..|stack| - 1]
    ensures stack[|stack| - 1] == full[p] <==> |stack| - 1 == p
  {
    var top := stack[|stack| - 1];
    assert stack == stack[..|stack| - 1] + [top];
    forall i | 0 <= i < |stack| - 1
      ensures stack[i] != top
    {
      assert full[i] == stack[i] && full[|stack| - 1] == top;
    }
    assert full[|stack| - 1] == top;
  }

  /** The bookkeeping of Tarjan's algorithm. */
  class TarjanState {
    var indices: map<ProcessThreadId, nat>
    var lowLinks: map<ProcessThreadId, nat>
    var index: nat
    var stack: seq<ProcessThreadId>
    var onStack: set<ProcessThreadId>
    /** For every node on the stack, the position on the stack of a node it reaches whose index is its lowlink. */
    ghost var witnesses: map<ProcessThreadId, nat>
    /** The components popped so far, in order. */
    ghost var emitted: seq<seq<ProcessThreadId>>

    ghost predicate Valid(g: Graph)
      reads this
    {
      TarjanOk(g, indices, lowLinks, index, stack, onStack, witnesses, emitted)
    }

    constructor ()
      ensures indices == map[] && lowLinks == map[] && index == 0 && stack == [] && onStack == {}
      ensures witnesses == map[] && emitted == []
    {
      indices := map[];
      lowLinks := map[];
      index := 0;
      stack := [];
      onStack := {};
      witnesses := map[];
      emitted := [];
    }
  }

  /** The state after indexing and pushing v satisfies the invariant. */
  lemma PushValid(g: Graph, state: TarjanState, idx: map<P, nat>, low: map<P, nat>, counter: nat,
      stack: seq<P>, onStack: set<P>, wit: map<P, nat>, emitted: seq<seq<P>>, v: P)
    requires TarjanOk(g, idx, low, counter, stack, onStack, wit, emitted) && v in g && v !in idx
    requires state.indices == idx[v := counter] && state.lowLinks == low[v := counter] && state.index == counter + 1
    requires state.stack == stack + [v] && state.onStack == onStack + {v} && state.witnesses == wit[v := |stack|]
    requires state.emitted == emitted
    ensures state.Valid(g)
  {
    PushStep(g, idx, low, counter, stack, onStack, wit, emitted, v);
  }

  /** What the invariant says about the node at position i of the stack. */
  lemma StackFacts(g: Graph, idx: map<P, nat>, low: map<P, nat>, counter: nat,
      stack: seq<P>, onStack: set<P>, wit: map<P, nat>, emitted: seq<seq<P>>, i: nat)
    requires TarjanOk(g, idx, low, counter, stack, onStack, wit, emitted) && i < |stack|
    ensures stack[i] in onStack && stack[i] in idx && stack[i] in low && stack[i] in wit
    ensures low[stack[i]] <= idx[stack[i]] < counter
    ensures wit[stack[i]] < |stack| && stack[wit[stack[i]]] in idx && idx[stack[wit[stack[i]]]] == low[stack[i]]
    ensures Reaches(g, stack[i], stack[wit[stack[i]]])
  {
    var x := stack[i];
    assert x in Elems(stack);
    assert low[x] <= idx[x];
  }

  /**
   * A successor s of v that is still on the stack: lowering v's lowlink to
   * the index of s keeps the invariant and the nodes above v.
   */
  lemma LowerToOnStack(g: Graph, idx: map<P, nat>, low: map<P, nat>, counter: nat,
      stack: seq<P>, onStack: set<P>, wit: map<P, nat>, emitted: seq<seq<P>>, v: P, s: P, p: nat) returns (q: nat)
    requires TarjanOk(g, idx, low, counter, stack, onStack, wit, emitted)
    requires v in g && s in g[v] && s in onStack
    requires p < |stack| && stack[p] == v
    requires Above(g, idx, low, v, stack[p + 1..])
    ensures s in idx && v in low && q < |stack| && stack[q] == s
    ensures TarjanOk(g, idx, low[v := Min(low[v], idx[s])], counter, stack, onStack,
      if idx[s] < low[v] then wit[v := q] else wit, emitted)
    ensures Above(g, idx, low[v := Min(low[v], idx[s])], v, stack[p + 1..])
  {
    assert s in Elems(stack);
    q :| 0 <= q < |stack| && stack[q] == s;
    StackFacts(g, idx, low, counter, stack, onStack, wit, emitted, p);
    ReachesRefl(g, s);
    ReachesStep(g, v, s, s);
    AboveLower(g, idx, low, v, stack[p + 1..], idx[s]);
    LowerStep(g, idx, low, counter, stack, onStack, wit, emitted, v, idx[s], q);
  }

  /**
   * After the call for a child c of v returns, lowering v's lowlink to the
   * child's lowlink keeps the invariant, and the child with what its call
   * left on the stack joins the nodes above v.
   */
  lemma LowerToChild(g: Graph, idx1: map<P, nat>, low1: map<P, nat>, s1: seq<P>,
      idx: map<P, nat>, low: map<P, nat>, counter: nat,
      stack: seq<P>, onStack: set<P>, wit: map<P, nat>, emitted: seq<seq<P>>, v: P, c: P, p: nat)
    requires TarjanOk(g, idx, low, counter, stack, onStack, wit, emitted)
    requires v in g && c in g[v]
    requires p < |s1| && s1[p] == v && Above(g, idx1, low1, v, s1[p + 1..]) && Kept(idx1, low1, idx, low)
    requires c in idx && c in low && idx[c] > idx1[v]
    requires |s1| <= |stack| && stack[..|s1|] == s1
    requires Ext(g, idx, low, c, stack[|s1|..])
    ensures v in low && c in low && (low[c] < low[v] ==> c in wit)
    ensures TarjanOk(g, idx, low[v := Min(low[v], low[c])], counter, stack, onStack,
      if low[c] < low[v] then wit[v := wit[c]] else wit, emitted)
    ensures Above(g, idx, low[v := Min(low[v], low[c])], v, stack[p + 1..])
  {
    TakeMore(stack, s1, p + 1);
    ChildStep(g, idx1, low1, idx, low, v, c, s1[p + 1..], stack[|s1|..]);
    assert stack[p] == v;
    StackFacts(g, idx, low, counter, stack, onStack, wit, emitted, p);
    var q := 0;
    if low[c] < low[v] {
      assert stack[|s1|..] != [];
      StackFacts(g, idx, low, counter, stack, onStack, wit, emitted, |s1|);
      q := wit[c];
      ReachesStep(g, v, c, stack[q]);
    }
    LowerStep(g, idx, low, counter, stack, onStack, wit, emitted, v, low[c], q);
  }

  /** A stack that extends `s` by at least one more element. */
  lemma TakeMore(a: seq<P>, s: seq<P>, n: nat)
    requires |s| <= |a| && a[..|s|] == s && n <= |s|
    ensures a[..n] == s[..n] && a[n..] == s[n..] + a[|s|..]
  {
    assert a == s + a[|s|..];
  }

  /** The top of a stack whose first |s|+1 entries are s and then v. */
  lemma TakeTop(a: seq<P>, s: seq<P>, v: P)
    requires |a| > |s| && a[..|s| + 1] == s + [v]
    ensures a[..|s|] == s && a[|s|] == v && a[|s|..][0] == v && a[|s|..][1..] == a[|s| + 1..]
  {
    assert a[..|s|] == a[..|s| + 1][..|s|];
  }

}
