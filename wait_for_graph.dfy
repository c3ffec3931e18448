/**
 * The wait-for graph of the deadlock detector: an edge a -> b says thread a
 * waits for thread b (for a lock b holds, or for b to finish). Deadlocks
 * are the strongly connected components of two or more threads, found with
 * Tarjan's algorithm.
 */
module WaitForGraph {
  import opened Models
  import opened Tarjan

  datatype BlockedOnType = Lock | Thread

  /** Why a thread waits: for a lock and its owner, or for a thread to finish. */
  datatype WaitInfo = WaitInfo(blockedOnType: BlockedOnType, waitingFor: ProcessThreadId, lockId: Option<ProcessTrackedObjectId>)

  /** Every successor is itself a node of the graph. */
  ghost predicate Closed(g: Graph)
  {
    forall n, m {:trigger m in g[n]} :: n in g && m in g[n] ==> m in g
  }

  /** EnsureThreadExists: the thread becomes a node, with no successors if it was not one. */
  function WithNode(g: Graph, n: ProcessThreadId): (r: Graph)
    ensures r.Keys == g.Keys + {n}
    ensures forall m :: m in g ==> r[m] == g[m]
    ensures n !in g ==> r[n] == {}
  {
    if n in g then g else g[n := {}]
  }

  /** The graph after SetThreadWaiting: both threads are nodes and `from` waits for `to`. */
  function AddEdge(g: Graph, from: ProcessThreadId, to: ProcessThreadId): (r: Graph)
    ensures r.Keys == g.Keys + {from, to}
    ensures r[from] == (if from in g then g[from] else {}) + {to}
    ensures forall n :: n in r && n != from ==> r[n] == if n in g then g[n] else {}
    ensures Closed(g) ==> Closed(r)
  {
    var g1 := WithNode(WithNode(g, from), to);
    g1[from := g1[from] + {to}]
  }

  /** The graph after ClearThreadWaiting: the thread is a node that waits for nobody. */
  function ClearEdges(g: Graph, n: ProcessThreadId): (r: Graph)
    ensures r.Keys == g.Keys + {n}
    ensures r[n] == {}
    ensures forall m :: m in g && m != n ==> r[m] == g[m]
    ensures Closed(g) ==> Closed(r)
  {
    WithNode(g, n)[n := {}]
  }

  /** The components of two or more threads, in order: the ones reported as deadlocks. */
  function Deadlocked(components: seq<seq<P>>): seq<seq<P>>
    decreases |components|
  {
    if components == [] then []
    else
      var last := components[|components| - 1];
      Deadlocked(components[..|components| - 1]) + if |last| > 1 then [last] else []
  }

  /** A component is reported exactly when it has two or more threads. */
  lemma {:induction false} DeadlockedMembers(components: seq<seq<P>>)
    ensures forall s :: s in Deadlocked(components) <==> s in components && |s| > 1
    decreases |components|
  {
    if components != [] {
      var n := |components| - 1;
      DeadlockedMembers(components[..n]);
      assert components == components[..n] + [components[n]];
    }
  }

  lemma {:induction false} DeadlockedAppend(a: seq<seq<P>>, b: seq<seq<P>>)
    ensures Deadlocked(a + b) == Deadlocked(a) + Deadlocked(b)
    decreases |b|
  {
    if b == [] {
      assert a + b == a;
    } else {
      var b' := b[..|b| - 1];
      assert (a + b)[..|a + b| - 1] == a + b';
      DeadlockedAppend(a, b');
    }
  }

  lemma DeadlockedStep(components: seq<seq<P>>, i: nat)
    requires i < |components|
    ensures Deadlocked(components[..i + 1]) == Deadlocked(components[..i]) + if |components[i]| > 1 then [components[i]] else []
  {
    assert components[..i + 1][..i] == components[..i];
  }

  /** Reporting a subsequence keeps disjoint components disjoint. */
  lemma {:induction false} DeadlockedDisjoint(components: seq<seq<P>>)
    requires PairwiseDisjoint(components)
    ensures PairwiseDisjoint(Deadlocked(components))
    decreases |components|
  {
    if components != [] {
      var n := |components| - 1;
      var prefix, last := components[..n], components[n];
      DisjointPrefix(components, n);
      DeadlockedDisjoint(prefix);
      if |last| > 1 {
        DisjointLastPrefix(components, n);
        DisjointFromLast(prefix, last);
        DisjointSnoc(Deadlocked(prefix), last);
      }
    }
  }

  lemma DisjointPrefix(ss: seq<seq<P>>, n: nat)
    requires PairwiseDisjoint(ss) && n <= |ss|
    ensures PairwiseDisjoint(ss[..n])
  {
    forall i, j | 0 <= i < j < n
      ensures Elems(ss[..n][i]) !! Elems(ss[..n][j])
    {
      assert ss[..n][i] == ss[i] && ss[..n][j] == ss[j];
    }
  }

  lemma DisjointFromLast(prefix: seq<seq<P>>, last: seq<P>)
    requires forall k :: 0 <= k < |prefix| ==> Elems(prefix[k]) !! Elems(last)
    ensures forall i :: 0 <= i < |Deadlocked(prefix)| ==> Elems(Deadlocked(prefix)[i]) !! Elems(last)
  {
    var r := Deadlocked(prefix);
    DeadlockedMembers(prefix);
    forall i | 0 <= i < |r|
      ensures Elems(r[i]) !! Elems(last)
    {
      assert r[i] in prefix;
    }
  }

  lemma DisjointLastPrefix(ss: seq<seq<P>>, n: nat)
    requires PairwiseDisjoint(ss) && n < |ss|
    ensures forall k :: 0 <= k < |ss[..n]| ==> Elems(ss[..n][k]) !! Elems(ss[n])
  {
    forall k | 0 <= k < n
      ensures Elems(ss[..n][k]) !! Elems(ss[n])
    {
      assert ss[..n][k] == ss[k];
    }
  }

  lemma DisjointSnoc(r: seq<seq<P>>, last: seq<P>)
    requires PairwiseDisjoint(r) && forall i :: 0 <= i < |r| ==> Elems(r[i]) !! Elems(last)
    ensures PairwiseDisjoint(r + [last])
  {
    forall i, j | 0 <= i < j < |r| + 1
      ensures Elems((r + [last])[i]) !! Elems((r + [last])[j])
    {
      assert (r + [last])[i] == r[i];
    }
  }

  /** Appends the components of `found` with two or more threads to `deadlocks`, in order. */
  method KeepDeadlocks(found: seq<seq<P>>, deadlocks: seq<seq<P>>) returns (kept: seq<seq<P>>)
    ensures kept == deadlocks + Deadlocked(found)
  {
    kept := deadlocks;
    var i := 0;
    while i < |found|
      invariant 0 <= i <= |found|
      invariant kept == deadlocks + Deadlocked(found[..i])
    {
      DeadlockedStep(found, i);
      if |found[i]| > 1 {
        kept := kept + [found[i]];
      }
      i := i + 1;
    }
    assert found[..i] == found;
  }

  class WaitForGraph {
    const processId: nat
    var edges: Graph
    var waitInfo: map<ProcessThreadId, WaitInfo>

    ghost predicate Valid()
      reads this
    {
      Closed(edges)
    }

    constructor (processId: nat)
      ensures Valid() && this.processId == processId && edges == map[] && waitInfo == map[]
    {
      this.processId := processId;
      edges := map[];
      waitInfo := map[];
    }

    function GetWaitInfo(processThreadId: ProcessThreadId): Option<WaitInfo>
      reads this
    {
      if processThreadId in waitInfo then Some(waitInfo[processThreadId]) else None
    }

    method SetThreadWaiting(processThreadId: ProcessThreadId, waitingFor: ProcessThreadId, info: WaitInfo)
      requires Valid()
      modifies this
      ensures Valid()
      ensures edges == AddEdge(old(edges), processThreadId, waitingFor)
      ensures waitInfo == old(waitInfo)[processThreadId := info]
    {
      edges := WithNode(edges, processThreadId);
      edges := WithNode(edges, waitingFor);
      edges := edges[processThreadId := edges[processThreadId] + {waitingFor}];
      waitInfo := waitInfo[processThreadId := info];
    }

    method ClearThreadWaiting(processThreadId: ProcessThreadId)
      requires Valid()
      modifies this
      ensures Valid()
      ensures edges == ClearEdges(old(edges), processThreadId)
      ensures waitInfo == old(waitInfo) - {processThreadId}
    {
      edges := WithNode(edges, processThreadId);
      edges := edges[processThreadId := {}];
      waitInfo := waitInfo - {processThreadId};
    }

    /**
     * The components of two or more threads: each is strongly connected,
     * so its threads wait for one another in a cycle, no thread is in two,
     * and a thread waiting for itself alone is never reported.
     */
    method DetectDeadlocks() returns (deadlocks: seq<seq<ProcessThreadId>>, ghost components: seq<seq<ProcessThreadId>>)
      requires Valid()
      ensures deadlocks == Deadlocked(components) && PairwiseDisjoint(components)
      ensures forall s :: s in components ==> Distinct(s) && Elems(s) <= edges.Keys && StronglyConnected(edges, s)
      ensures forall s :: s in deadlocks ==> |s| > 1 && Distinct(s) && Elems(s) <= edges.Keys && StronglyConnected(edges, s)
      ensures PairwiseDisjoint(deadlocks)
      ensures Union(components) == edges.Keys
    {
      var state := new TarjanState();
      deadlocks := [];
      var nodes := edges.Keys;
      while nodes != {}
        invariant state.Valid(edges) && state.stack == []
        invariant deadlocks == Deadlocked(state.emitted)
        invariant nodes <= edges.Keys && edges.Keys - nodes <= state.indices.Keys
        decreases nodes
      {
        var node :| node in nodes;
        nodes := nodes - {node};
        if node in state.indices {
          continue;
        }
        ghost var e0 := state.emitted;
        var found := VisitRoot(node, state);
        DeadlockedAppend(e0, found);
        deadlocks := KeepDeadlocks(found, deadlocks);
      }
      components := state.emitted;
      AllEmitted(edges, state.indices, state.lowLinks, state.index, state.onStack, state.witnesses, state.emitted);
      forall s | s in components
        ensures Distinct(s) && Elems(s) <= edges.Keys && StronglyConnected(edges, s)
      {
        var k :| 0 <= k < |components| && components[k] == s;
        EmittedPrefix(edges, state.indices, state.stack, state.emitted, k);
        SccStronglyConnected(edges, s);
      }
      DeadlockedMembers(components);
      DeadlockedDisjoint(components);
    }

    /** A visit from the outer loop: it starts and ends with an empty stack. */
    method VisitRoot(node: ProcessThreadId, state: TarjanState) returns (found: seq<seq<ProcessThreadId>>)
      requires Valid() && node in edges && node !in state.indices
      requires state.Valid(edges) && state.stack == []
      modifies state
      ensures state.Valid(edges) && state.stack == []
      ensures old(state.indices).Keys + {node} <= state.indices.Keys
      ensures state.emitted == old(state.emitted) + found
    {
      found := StrongConnect(node, state);
      if state.stack != [] {
        BottomIsRoot(edges, state.indices, state.lowLinks, state.index, state.stack, state.onStack, state.witnesses, state.emitted);
        assert false;
      }
    }

    /**
     * Tarjan's visit of `node`: indexes it, visits its successors, and, if
     * it is a root, pops its component. The components it emits are
     * appended to `state.emitted` and returned, in order.
     */
    method StrongConnect(node: ProcessThreadId, state: TarjanState) returns (found: seq<seq<ProcessThreadId>>)
      requires Valid() && node in edges && node !in state.indices
      requires state.Valid(edges)
      modifies state
      ensures state.Valid(edges)
      ensures Kept(old(state.indices), old(state.lowLinks), state.indices, state.lowLinks)
      ensures node in state.indices && node in state.lowLinks
      ensures state.indices[node] == old(state.index) && old(state.index) < state.index
      ensures |old(state.stack)| <= |state.stack| && state.stack[..|old(state.stack)|] == old(state.stack)
      ensures Ext(edges, state.indices, state.lowLinks, node, state.stack[|old(state.stack)|..])
      ensures state.emitted == old(state.emitted) + found
      decreases edges.Keys - state.indices.Keys, 0
    {
      ghost var p := |state.stack|;
      Push(node, state);
      assert state.stack[..p + 1] == old(state.stack) + [node];
      assert state.stack[p + 1..] == [];
      found := VisitSuccessors(node, state, old(state.indices), old(state.lowLinks), p);

      TakeTop(state.stack, old(state.stack), node);
      var more := FinishNode(node, state, p);
      ConcatAssoc(old(state.emitted), found, more);
      found := found + more;
    }

    /**
     * The end of StrongConnect: a node that is the root of its component
     * pops the component off the stack and yields it; any other node stays.
     */
    method FinishNode(node: ProcessThreadId, state: TarjanState, ghost p: nat) returns (found: seq<seq<ProcessThreadId>>)
      requires state.Valid(edges)
      requires p < |state.stack| && state.stack[p] == node && node in state.indices && node in state.lowLinks
      requires Above(edges, state.indices, state.lowLinks, node, state.stack[p + 1..])
      requires state.lowLinks[node] <= state.indices[node]
      modifies state
      ensures state.Valid(edges)
      ensures state.indices == old(state.indices) && state.lowLinks == old(state.lowLinks) && state.index == old(state.index)
      ensures p <= |state.stack| && state.stack[..p] == old(state.stack[..p])
      ensures Ext(edges, state.indices, state.lowLinks, node, state.stack[p..])
      ensures state.emitted == old(state.emitted) + found
    {
      if state.lowLinks[node] != state.indices[node] {
        NotRoot(edges, state.indices, state.lowLinks, state.stack, p);
        return [];
      }
      var scc := PopComponent(node, state, p);
      assert state.stack[p..] == [];
      found := [scc];
    }

    /** The loop over the successors of `node`, at position p of the stack. */
    method VisitSuccessors(node: ProcessThreadId, state: TarjanState,
        ghost i0: map<ProcessThreadId, nat>, ghost l0: map<ProcessThreadId, nat>, ghost p: nat)
        returns (found: seq<seq<ProcessThreadId>>)
      requires Valid() && node in edges
      requires state.Valid(edges)
      requires node !in i0 && Kept(i0, l0, state.indices, state.lowLinks)
      requires p < |state.stack| && state.stack[p] == node
      requires Above(edges, state.indices, state.lowLinks, node, state.stack[p + 1..])
      modifies state
      ensures state.Valid(edges)
      ensures Kept(i0, l0, state.indices, state.lowLinks)
      ensures node in state.indices && state.indices[node] == old(state.indices[node]) && old(state.index) <= state.index
      ensures |state.stack| > p && state.stack[..p + 1] == old(state.stack[..p + 1])
      ensures Above(edges, state.indices, state.lowLinks, node, state.stack[p + 1..])
      ensures state.lowLinks[node] <= state.indices[node]
      ensures state.emitted == old(state.emitted) + found
      decreases edges.Keys - state.indices.Keys, 3
    {
      found := [];
      var remaining := edges[node];
      while remaining != {}
        invariant state.Valid(edges)
        invariant Kept(i0, l0, state.indices, state.lowLinks) && old(state.indices).Keys <= state.indices.Keys
        invariant node in state.indices && state.indices[node] == old(state.indices[node]) && old(state.index) <= state.index
        invariant |state.stack| > p && state.stack[..p + 1] == old(state.stack[..p + 1]) && state.stack[p] == node
        invariant Above(edges, state.indices, state.lowLinks, node, state.stack[p + 1..])
        invariant state.emitted == old(state.emitted) + found
        invariant remaining <= edges[node]
        decreases remaining
      {
        var successor :| successor in remaining;
        remaining := remaining - {successor};
        var more := VisitSuccessor(node, successor, state, i0, l0, p);
        ConcatAssoc(old(state.emitted), found, more);
        found := found + more;
      }
      StackFacts(edges, state.indices, state.lowLinks, state.index, state.stack, state.onStack, state.witnesses,
        state.emitted, p);
    }

    /** Indexes `node` with the next index and pushes it. */
    method Push(node: ProcessThreadId, state: TarjanState)
      requires node in edges && node !in state.indices
      requires state.Valid(edges)
      modifies state
      ensures state.Valid(edges)
      ensures state.indices == old(state.indices)[node := old(state.index)]
      ensures state.lowLinks == old(state.lowLinks)[node := old(state.index)]
      ensures state.index == old(state.index) + 1
      ensures state.stack == old(state.stack) + [node] && state.onStack == old(state.onStack) + {node}
      ensures state.emitted == old(state.emitted)
    {
      state.indices := state.indices[node := state.index];
      state.lowLinks := state.lowLinks[node := state.index];
      state.index := state.index + 1;
      state.stack := state.stack + [node];
      state.onStack := state.onStack + {node};
      state.witnesses := state.witnesses[node := |old(state.stack)|];
      PushValid(edges, state, old(state.indices), old(state.lowLinks), old(state.index), old(state.stack),
        old(state.onStack), old(state.witnesses), old(state.emitted), node);
    }

    /**
     * One successor of `node`, at position p of the stack: visits it if it
     * is unindexed, or lowers `node`'s lowlink to the successor's index if
     * the successor is still on the stack.
     */
    method VisitSuccessor(node: ProcessThreadId, successor: ProcessThreadId, state: TarjanState,
        ghost i0: map<ProcessThreadId, nat>, ghost l0: map<ProcessThreadId, nat>, ghost p: nat)
        returns (more: seq<seq<ProcessThreadId>>)
      requires Valid() && node in edges && successor in edges[node]
      requires state.Valid(edges)
      requires node !in i0 && Kept(i0, l0, state.indices, state.lowLinks)
      requires p < |state.stack| && state.stack[p] == node
      requires Above(edges, state.indices, state.lowLinks, node, state.stack[p + 1..])
      modifies state
      ensures state.Valid(edges)
      ensures Kept(i0, l0, state.indices, state.lowLinks) && old(state.indices).Keys <= state.indices.Keys
      ensures node in state.indices && state.indices[node] == old(state.indices[node]) && old(state.index) <= state.index
      ensures |state.stack| > p && state.stack[..p + 1] == old(state.stack[..p + 1])
      ensures Above(edges, state.indices, state.lowLinks, node, state.stack[p + 1..])
      ensures state.emitted == old(state.emitted) + more
      decreases edges.Keys - state.indices.Keys, 2
    {
      more := [];
      if successor !in state.indices {
        more := VisitChild(node, successor, state, i0, l0, p);
      } else if successor in state.onStack {
        ghost var q := LowerToOnStack(edges, state.indices, state.lowLinks, state.index, state.stack, state.onStack,
          state.witnesses, state.emitted, node, successor, p);
        var m := state.indices[successor];
        state.witnesses := if m < state.lowLinks[node] then state.witnesses[node := q] else state.witnesses;
        state.lowLinks := state.lowLinks[node := Min(state.lowLinks[node], m)];
      }
    }

    /** An unindexed successor: visits it, then lowers `node`'s lowlink to the child's. */
    method VisitChild(node: ProcessThreadId, successor: ProcessThreadId, state: TarjanState,
        ghost i0: map<ProcessThreadId, nat>, ghost l0: map<ProcessThreadId, nat>, ghost p: nat)
        returns (more: seq<seq<ProcessThreadId>>)
      requires Valid() && node in edges && successor in edges[node] && successor !in state.indices
      requires state.Valid(edges)
      requires node !in i0 && Kept(i0, l0, state.indices, state.lowLinks)
      requires p < |state.stack| && state.stack[p] == node
      requires Above(edges, state.indices, state.lowLinks, node, state.stack[p + 1..])
      modifies state
      ensures state.Valid(edges)
      ensures Kept(i0, l0, state.indices, state.lowLinks) && old(state.indices).Keys <= state.indices.Keys
      ensures node in state.indices && state.indices[node] == old(state.indices[node]) && old(state.index) <= state.index
      ensures |state.stack| > p && state.stack[..p + 1] == old(state.stack[..p + 1])
      ensures Above(edges, state.indices, state.lowLinks, node, state.stack[p + 1..])
      ensures state.emitted == old(state.emitted) + more
      decreases edges.Keys - state.indices.Keys, 1
    {
      ghost var s1 := state.stack;
      more := StrongConnect(successor, state);
      LowerToChild(edges, old(state.indices), old(state.lowLinks), s1, state.indices, state.lowLinks, state.index,
        state.stack, state.onStack, state.witnesses, state.emitted, node, successor, p);
      var m := state.lowLinks[successor];
      state.witnesses := if m < state.lowLinks[node] then state.witnesses[node := state.witnesses[successor]] else state.witnesses;
      state.lowLinks := state.lowLinks[node := Min(state.lowLinks[node], m)];
    }

    /** Pops the root `node` at position p and everything above it, as one component. */
    method PopComponent(node: ProcessThreadId, state: TarjanState, ghost p: nat) returns (scc: seq<ProcessThreadId>)
      requires state.Valid(edges)
      requires p < |state.stack| && state.stack[p] == node && state.lowLinks[node] == state.indices[node]
      requires Above(edges, state.indices, state.lowLinks, node, state.stack[p + 1..])
      modifies state
      ensures state.Valid(edges)
      ensures state.stack == old(state.stack[..p])
      ensures state.indices == old(state.indices) && state.lowLinks == old(state.lowLinks) && state.index == old(state.index)
      ensures state.emitted == old(state.emitted) + [scc]
    {
      ghost var full, fi, fl, fw, fe, fc := state.stack, state.indices, state.lowLinks, state.witnesses, state.emitted, state.index;
      OrderDistinct(state.indices, state.stack);
      scc := PopUntil(node, state, p);
      PopStep(edges, fi, fl, fc, full, fw, fe, p, scc);
      state.emitted := state.emitted + [scc];
    }

    /** The pop loop: pops until `node`, at position p, is gone, and returns the popped nodes in the order popped. */
    method PopUntil(node: ProcessThreadId, state: TarjanState, ghost p: nat) returns (scc: seq<ProcessThreadId>)
      requires Distinct(state.stack) && state.onStack == Elems(state.stack)
      requires p < |state.stack| && state.stack[p] == node
      modifies state
      ensures state.stack == old(state.stack[..p]) && state.onStack == Elems(state.stack)
      ensures state.indices == old(state.indices) && state.lowLinks == old(state.lowLinks) && state.index == old(state.index)
      ensures state.witnesses == old(state.witnesses) && state.emitted == old(state.emitted)
      ensures |scc| == |old(state.stack)| - p && forall i :: 0 <= i < |scc| ==> scc[i] == old(state.stack[|state.stack| - 1 - i])
    {
      ghost var full := state.stack;
      scc := [];
      var current := node;
      var done := false;
      while !done
        invariant p <= |state.stack| <= |full| && state.stack == full[..|state.stack|]
        invariant done <==> |state.stack| == p
        invariant |scc| == |full| - |state.stack|
        invariant forall i :: 0 <= i < |scc| ==> scc[i] == full[|full| - 1 - i]
        invariant state.onStack == Elems(state.stack)
        invariant state.indices == old(state.indices) && state.lowLinks == old(state.lowLinks) && state.index == old(state.index)
        invariant state.witnesses == old(state.witnesses) && state.emitted == old(state.emitted)
        decreases |state.stack|
      {
        PopOne(full, state.stack, p);
        current := state.stack[|state.stack| - 1];
        state.stack := state.stack[..|state.stack| - 1];
        state.onStack := state.onStack - {current};
        scc := scc + [current];
        done := current == node;
      }
    }
  }
}
