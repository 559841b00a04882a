/** The recursive strongly-connected-component search of the call-graph check, on its own arrays. */
module Tarjan {
  import opened Reachability
  import opened TarjanState

  /** The working storage one analysis allocates, together with the edges it walks. */
  class Finder {
    const edges: seq<Edge>
    const n: nat
    const indices: array<int>
    const lowlink: array<int>
    const stack: array<nat>
    const component: array<int>
    const componentSizes: array<int>
    const onstack: array<bool>
    var indexCounter: nat
    var stackTop: nat
    var componentCount: nat

    ghost predicate Allocated()
      reads this
    {
      && indices.Length == n && lowlink.Length == n && stack.Length == n && component.Length == n
      && componentSizes.Length == n && onstack.Length == n && stackTop <= n
      && indices != lowlink && indices != component && indices != componentSizes
      && lowlink != component && lowlink != componentSizes && component != componentSizes
    }

    ghost function Now(): Snap
      reads this, indices, stack, component, componentSizes, onstack
      requires Allocated()
    {
      Snap(n, indices[..], indexCounter, stack[..stackTop], onstack[..], component[..],
           componentSizes[..], componentCount)
    }

    lemma ReadNow()
      requires Allocated()
      ensures Shape(Now()) && Now().n == n && |Now().stk| == stackTop && Now().ctr == indexCounter
      ensures indices.Length == n == lowlink.Length == onstack.Length
      ensures forall x :: 0 <= x < n ==> indices[x] == Now().idx[x] && onstack[x] == Now().on[x]
    {
    }

    constructor (edges: seq<Edge>, n: nat)
      requires InRange(edges, n)
      ensures this.edges == edges && this.n == n && Allocated()
      ensures fresh(indices) && fresh(lowlink) && fresh(stack) && fresh(component)
      ensures fresh(componentSizes) && fresh(onstack)
      ensures Good(Now(), edges, {}) && forall v :: 0 <= v < n ==> Now().idx[v] == -1
    {
      this.edges, this.n := edges, n;
      indices := new int[n](_ => -1);
      lowlink := new int[n](_ => -1);
      stack := new nat[n];
      component := new int[n](_ => -1);
      componentSizes := new int[n](_ => 0);
      onstack := new bool[n](_ => false);
      indexCounter, stackTop, componentCount := 0, 0, 0;
    }

    method Push(v: nat)
      requires Allocated() && v < n && stackTop < n
      modifies this`indexCounter, this`stackTop, indices, lowlink, stack, onstack
      ensures Allocated() && Now() == Enter(old(Now()), v)
      ensures lowlink[..] == old(lowlink[..])[v := old(indexCounter)]
    {
      indices[v] := indexCounter;
      lowlink[v] := indexCounter;
      indexCounter := indexCounter + 1;
      stack[stackTop] := v;
      stackTop := stackTop + 1;
      onstack[v] := true;
    }

    method PopInto(cid: nat) returns (w: nat)
      requires Allocated() && 0 < stackTop && stack[stackTop - 1] < n && cid < n
      modifies this`stackTop, component, componentSizes, onstack
      ensures Allocated() && w == old(stack[stackTop - 1])
      ensures Now() == TakeTop(old(Now()), cid)
    {
      stackTop := stackTop - 1;
      w := stack[stackTop];
      onstack[w] := false;
      component[w] := cid;
      componentSizes[cid] := componentSizes[cid] + 1;
    }

    /** Pops the stack down to v into a fresh component. */
    method CloseComponent(v: nat, ghost height: nat)
      requires Allocated() && StackOk(Now()) && SizesOk(Now())
      requires v < n && height < stackTop && stack[height] == v && componentCount < n
      modifies this`stackTop, this`componentCount, component, componentSizes, onstack
      ensures Allocated() && Popped(old(Now()), Now(), v)
      ensures StackOk(Now()) && SizesOk(Now()) && Now().stk == old(Now()).stk[..height]
    {
      ghost var s := Now();
      var cid := componentCount;
      componentCount := componentCount + 1;
      componentSizes[cid] := 0;
      PopNothing(s, Now());
      assert s.stk[height] == v;
      hide StackOk, SizesOk, PoppedTo, Popped, TakeTop;
      while true
        invariant Allocated() && height < stackTop
        invariant PoppedTo(s, Now(), stackTop)
        decreases stackTop
      {
        ghost var t := Now();
        PopTop(s, t, height);
        PopOne(s, t);
        var w := PopInto(cid);
        assert Now() == TakeTop(t, cid);
        if w == v {
          break;
        }
      }
      PopDone(s, Now(), height);
    }

    /** v's edges are done: close its component if v is the root, else leave v stacked. */
    method FinishVisit(v: nat, ghost s: Snap, ghost gray: set<nat>)
      requires Allocated() && Good(Now(), edges, gray + {v}) && Inside(s, Now(), gray, v)
      requires v < n && Scanning(Now(), edges, s.ctr, v, |edges|, lowlink[v])
      modifies this`stackTop, this`componentCount, component, componentSizes, onstack
      ensures Allocated() && Good(Now(), edges, gray)
      ensures Returned(s, Now(), edges, v, lowlink[v])
    {
      ghost var t := Now();
      ScanFacts(t, edges, s.ctr, v, |edges|, lowlink[v]);
      InsideTop(s, t, gray, v);
      hide Reach, Good, Inside, Scanning, Returned, StackOk;
      if lowlink[v] == indices[v] {
        CloseReady(t, edges, gray, v);
        CloseComponent(v, |s.stk|);
        ReturnsClosed(s, t, Now(), edges, gray, v);
      } else {
        ReturnsStacked(s, t, edges, gray, v, lowlink[v]);
      }
    }

    /** Numbers v, searches what it calls, and closes v's component if v is its root. */
    method Visit(v: nat, ghost gray: set<nat>)
      requires Allocated() && Good(Now(), edges, gray)
      requires v < n && indices[v] < 0
      requires AllReach(edges, gray, v)
      modifies this`indexCounter, this`stackTop, this`componentCount
      modifies indices, lowlink, stack, component, componentSizes, onstack
      ensures Allocated() && Good(Now(), edges, gray)
      ensures Returned(old(Now()), Now(), edges, v, lowlink[v])
      ensures KeepsLow(old(Now()), old(lowlink[..]), lowlink[..], -1)
      decreases Unvisited(Now()), 0
    {
      ghost var s, a := Now(), lowlink[..];
      ReadNow();
      hide *;
      BeginVisit(s, edges, gray, v);
      Push(v);
      ghost var t := Now();
      ReadNow();
      InsideShrinks(s, t, gray, v);
      ghost var b := lowlink[..];
      ScanEdges(v, s.ctr, gray);
      ProgressFacts(t, b, Now(), lowlink[..], edges, gray, s.ctr, v, |edges|);
      InsideGrows(s, t, Now(), gray, v);
      KeepsLowBelow(s, a, lowlink[..], gray, t, v);
      FinishVisit(v, s, gray);
    }

    /** The loop over all edges, of which v's own are followed. */
    method ScanEdges(v: nat, ghost base: int, ghost gray: set<nat>)
      requires Allocated() && Good(Now(), edges, gray + {v}) && v < n && indices[v] >= 0
      requires Scanning(Now(), edges, base, v, 0, lowlink[v])
      requires AllReach(edges, gray, v)
      modifies this`indexCounter, this`stackTop, this`componentCount
      modifies indices, lowlink, stack, component, componentSizes, onstack
      ensures Allocated()
      ensures Progress(old(Now()), old(lowlink[..]), Now(), lowlink[..], edges, gray, base, v, |edges|)
      decreases Unvisited(Now()), 2
    {
      ghost var s, a := Now(), lowlink[..];
      ReadNow();
      ProgressStarts(s, a, edges, gray, base, v);
      ScanFacts(s, edges, base, v, 0, lowlink[v]);
      hide *;
      var i := 0;
      while i < |edges|
        invariant i <= |edges| && Allocated()
        invariant Progress(s, a, Now(), lowlink[..], edges, gray, base, v, i)
      {
        ghost var t, b := Now(), lowlink[..];
        ProgressFacts(s, a, t, b, edges, gray, base, v, i);
        if edges[i].from != v {
          ProgressSkips(s, a, t, b, edges, gray, base, v, i);
          i := i + 1;
          continue;
        }
        ReadNow();
        FollowEdge(i, v, base, gray);
        ProgressTrans(s, a, t, b, Now(), lowlink[..], edges, gray, base, v, i);
        i := i + 1;
      }
    }

    method SetLow(v: nat, low: int)
      requires Allocated() && v < n
      modifies lowlink
      ensures Allocated() && Now() == old(Now()) && lowlink[..] == old(lowlink[..])[v := low]
    {
      lowlink[v] := low;
    }

    /** Visits the target of v's i-th edge if it is new, and lowers v's low-link accordingly. */
    method FollowEdge(i: nat, v: nat, ghost base: int, ghost gray: set<nat>)
      requires Allocated() && Good(Now(), edges, gray + {v}) && i < |edges| && v < n
      requires Scanning(Now(), edges, base, v, i, lowlink[v]) && indices[v] >= 0 && edges[i].from == v
      requires AllReach(edges, gray, v)
      modifies this`indexCounter, this`stackTop, this`componentCount
      modifies indices, lowlink, stack, component, componentSizes, onstack
      ensures Allocated()
      ensures Progress(old(Now()), old(lowlink[..]), Now(), lowlink[..], edges, gray, base, v, i + 1)
      decreases Unvisited(Now()), 1
    {
      ghost var t := Now();
      ScanFacts(t, edges, base, v, i, lowlink[v]);
      GrowsSelf(t);
      ReadNow();
      ghost var a := lowlink[..];
      KeepsLowSelf(t, a, v);
      hide Reach, AllReach, Good, Grows, Scanning, Returned, Now, Allocated, Shape, KeepsLow;
      var w := edges[i].to;
      if indices[w] < 0 {
        CallersReach(edges, gray, v, w);
        Visit(w, gray + {v});
        ghost var r, b := Now(), lowlink[..];
        KeepsLowCall(t, a, b, v);
        ReadNow();
        FollowCall(t, r, edges, gray, base, v, w, i, a[v], b[w]);
        if lowlink[w] < lowlink[v] {
          SetLow(v, lowlink[w]);
          KeepsLowSet(t, a, b, v, b[w]);
        }
      } else if onstack[w] && indices[w] < lowlink[v] {
        ScanLowers(t, edges, base, v, i, lowlink[v]);
        SetLow(v, indices[w]);
        KeepsLowSet(t, a, a, v, t.idx[w]);
      } else {
        ScanSkips(t, edges, base, v, i, lowlink[v]);
      }
    }

    /** Searches from every node. Afterwards components are exactly the classes of mutual
        reachability, numbered so that edges never lead to a higher component. */
    method FindComponents()
      requires Allocated() && Good(Now(), edges, {})
      modifies this`indexCounter, this`stackTop, this`componentCount
      modifies indices, lowlink, stack, component, componentSizes, onstack
      ensures Allocated() && Complete(Now(), edges)
    {
      assert VisitedTo(Now(), 0);
      hide *;
      var i := 0;
      while i < n
        invariant 0 <= i <= n && Allocated() && Good(Now(), edges, {}) && VisitedTo(Now(), i)
      {
        ghost var s := Now();
        ReadNow();
        if indices[i] >= 0 {
          VisitedNext(s, i);
          i := i + 1;
          continue;
        }
        NobodyActive(edges, i);
        Visit(i, {});
        ReturnedVisits(s, Now(), edges, i, lowlink[i]);
        i := i + 1;
      }
      ReadNow();
      NothingPending(Now(), edges);
    }
  }
}
