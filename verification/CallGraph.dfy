/** The direct-call graph of one translation unit and the check that no function whose
    parameters live in fixed storage can be entered again while it is active. */
module CallGraph {
  import opened Basics
  import opened Reachability
  import opened TarjanState
  import opened Tarjan

  /** A function declaration: identity, whether a symbol name can be formed for it, and whether
      some parameter has symbol-backed storage. */
  datatype Function = Function(id: nat, named: bool, staticParams: bool)

  datatype Node = Node(fn: Function, hasStaticParams: bool)

  /** A chain of direct calls, each one recorded. */
  ghost predicate CallChain(calls: set<(Function, Function)>, p: seq<Function>) {
    |p| > 1 && forall i :: 0 <= i < |p| - 1 ==> (p[i], p[i + 1]) in calls
  }

  /** f can be called again from within a call of f. */
  ghost predicate Reenters(calls: set<(Function, Function)>, f: Function) {
    exists p :: CallChain(calls, p) && p[0] == f && p[|p| - 1] == f
  }

  ghost predicate WellFormed(nodes: seq<Node>, edges: seq<Edge>) {
    && (forall i, j :: 0 <= i < j < |nodes| ==> nodes[i].fn != nodes[j].fn)
    && (forall i, j :: 0 <= i < j < |edges| ==> edges[i] != edges[j])
    && (forall i :: 0 <= i < |nodes| ==> nodes[i].fn.named && nodes[i].hasStaticParams == nodes[i].fn.staticParams)
    && InRange(edges, |nodes|)
  }

  ghost function CallsOf(nodes: seq<Node>, edges: seq<Edge>): set<(Function, Function)>
    requires WellFormed(nodes, edges)
  {
    set e | e in edges :: (nodes[e.from].fn, nodes[e.to].fn)
  }

  /** A cycle of node numbers is a chain of calls back to the same function, and conversely. */
  lemma CycleIsReentry(nodes: seq<Node>, edges: seq<Edge>, j: nat)
    requires WellFormed(nodes, edges) && j < |nodes|
    ensures OnCycle(edges, j) <==> Reenters(CallsOf(nodes, edges), nodes[j].fn)
  {
    var calls := CallsOf(nodes, edges);
    if OnCycle(edges, j) {
      var p :| PathFrom(edges, p, j, j) && |p| > 1;
      PathInRange(edges, |nodes|, p);
      var q := seq(|p|, i requires 0 <= i < |p| => nodes[p[i]].fn);
      forall i | 0 <= i < |q| - 1
        ensures (q[i], q[i + 1]) in calls
      {
        var e := Edge(p[i], p[i + 1]);
        assert e in edges && (q[i], q[i + 1]) == (nodes[e.from].fn, nodes[e.to].fn);
      }
      assert CallChain(calls, q);
    }
    if Reenters(calls, nodes[j].fn) {
      var q :| CallChain(calls, q) && q[0] == nodes[j].fn && q[|q| - 1] == nodes[j].fn;
      var p := NumberChain(nodes, edges, q);
      assert PathFrom(edges, p, j, j);
    }
  }

  lemma PathInRange(edges: seq<Edge>, n: nat, p: seq<nat>)
    requires IsPath(edges, p) && |p| > 1 && InRange(edges, n)
    ensures forall i :: 0 <= i < |p| ==> p[i] < n
  {
    forall i | 0 <= i < |p|
      ensures p[i] < n
    {
      if i < |p| - 1 { assert Edge(p[i], p[i + 1]) in edges; } else { assert Edge(p[i - 1], p[i - 1 + 1]) in edges; }
    }
  }

  lemma {:induction false} NumberChain(nodes: seq<Node>, edges: seq<Edge>, q: seq<Function>) returns (p: seq<nat>)
    requires WellFormed(nodes, edges) && CallChain(CallsOf(nodes, edges), q)
    ensures |p| == |q| && IsPath(edges, p) && forall i :: 0 <= i < |p| ==> p[i] < |nodes| && nodes[p[i]].fn == q[i]
  {
    assert (q[0], q[0 + 1]) in CallsOf(nodes, edges);
    var e :| e in edges && (nodes[e.from].fn, nodes[e.to].fn) == (q[0], q[1]);
    if |q| == 2 {
      p := [e.from, e.to];
    } else {
      forall i | 0 <= i < |q[1..]| - 1
        ensures (q[1..][i], q[1..][i + 1]) in CallsOf(nodes, edges)
      {
        assert (q[i + 1], q[i + 1 + 1]) in CallsOf(nodes, edges);
      }
      var rest := NumberChain(nodes, edges, q[1..]);
      assert nodes[rest[0]].fn == nodes[e.to].fn;
      p := [e.from] + rest;
      forall i | 0 <= i < |p| - 1
        ensures Edge(p[i], p[i + 1]) in edges
      {
        if i > 0 { assert Edge(rest[i - 1], rest[i - 1 + 1]) in edges; }
      }
    }
  }

  class Graph {
    var nodes: seq<Node>
    var edges: seq<Edge>

    ghost predicate Valid()
      reads this
    {
      WellFormed(nodes, edges)
    }

    ghost function Functions(): set<Function>
      reads this
    {
      set v | v in nodes :: v.fn
    }

    ghost function Calls(): set<(Function, Function)>
      requires Valid()
      reads this
    {
      CallsOf(nodes, edges)
    }

    constructor ()
      ensures Valid() && Functions() == {} && Calls() == {}
    {
      nodes, edges := [], [];
    }

    /** Interns a function; -1 for a missing function or one without a symbol name. */
    method NodeIndexForFunction(fn: Option<Function>) returns (index: int)
      requires Valid()
      modifies this
      ensures Valid() && edges == old(edges) && old(nodes) <= nodes
      ensures index >= 0 <==> fn.Some? && fn.value.named
      ensures index >= 0 ==> index < |nodes| && nodes[index].fn == fn.value
      ensures index < 0 ==> index == -1 && nodes == old(nodes)
      ensures Functions() == old(Functions()) + if index >= 0 then {fn.value} else {}
      ensures Calls() == old(Calls())
    {
      if fn.None? {
        return -1;
      }
      var i := 0;
      while i < |nodes|
        invariant 0 <= i <= |nodes|
        invariant forall j :: 0 <= j < i ==> nodes[j].fn != fn.value
      {
        if nodes[i].fn == fn.value {
          return i;
        }
        i := i + 1;
      }
      if !fn.value.named {
        return -1;
      }
      nodes := nodes + [Node(fn.value, fn.value.staticParams)];
      return |nodes| - 1;
    }

    /** Records that caller calls callee, unless that pair is already there. */
    method RecordEdge(caller: Option<Function>, callee: Option<Function>)
      requires Valid()
      modifies this
      ensures Valid()
      ensures Calls() == old(Calls()) +
        if caller.Some? && callee.Some? && caller.value.named && callee.value.named then {(caller.value, callee.value)} else {}
      ensures Functions() == old(Functions())
        + (if caller.Some? && caller.value.named then {caller.value} else {})
        + (if callee.Some? && callee.value.named then {callee.value} else {})
    {
      var from := NodeIndexForFunction(caller);
      var to := NodeIndexForFunction(callee);
      if from < 0 || to < 0 {
        return;
      }
      var i := 0;
      while i < |edges|
        invariant 0 <= i <= |edges|
        invariant forall j :: 0 <= j < i ==> edges[j] != Edge(from, to)
      {
        if edges[i].from == from && edges[i].to == to {
          return;
        }
        i := i + 1;
      }
      edges := edges + [Edge(from, to)];
    }

    /** Marks the components that hold a function with symbol-backed parameters. */
    method MarkStatic(component: array<int>) returns (hasStatic: array<bool>)
      requires component.Length == |nodes| && forall v :: 0 <= v < |nodes| ==> 0 <= component[v] < |nodes|
      ensures fresh(hasStatic) && hasStatic.Length == |nodes|
      ensures forall j :: 0 <= j < |nodes| && nodes[j].hasStaticParams ==> hasStatic[component[j]]
    {
      hasStatic := new bool[|nodes|](_ => false);
      var i := 0;
      while i < |nodes|
        invariant 0 <= i <= |nodes|
        invariant forall j :: 0 <= j < i && nodes[j].hasStaticParams ==> hasStatic[component[j]]
      {
        if component[i] >= 0 && nodes[i].hasStaticParams {
          hasStatic[component[i]] := true;
        }
        i := i + 1;
      }
    }

    /** Marks the components that contain a cycle. */
    method MarkCycles(component: array<int>, componentSizes: array<int>, componentCount: nat)
      returns (hasCycle: array<bool>)
      requires component.Length == componentSizes.Length == |nodes| && componentCount <= |nodes|
      requires forall v :: 0 <= v < |nodes| ==> 0 <= component[v] < |nodes|
      requires InRange(edges, |nodes|)
      ensures fresh(hasCycle) && hasCycle.Length == |nodes|
      ensures forall c :: 0 <= c < componentCount ==>
        (hasCycle[c] <==> componentSizes[c] > 1 || exists e :: e in edges && InnerEdge(component[..], e, c))
    {
      hasCycle := new bool[|nodes|](_ => false);
      var i := 0;
      while i < componentCount
        invariant 0 <= i <= componentCount
        invariant forall c :: 0 <= c < |nodes| ==> (hasCycle[c] <==> c < i && componentSizes[c] > 1)
      {
        if componentSizes[i] > 1 {
          hasCycle[i] := true;
        }
        i := i + 1;
      }
      i := 0;
      ghost var comp := component[..];
      while i < |edges|
        invariant 0 <= i <= |edges| && component[..] == comp
        invariant forall c :: 0 <= c < componentCount ==>
          (hasCycle[c] <==> componentSizes[c] > 1 || exists e :: e in edges[..i] && InnerEdge(comp, e, c))
      {
        var e := edges[i];
        assert edges[..i + 1] == edges[..i] + [e];
        if component[e.from] == component[e.to] {
          assert InnerEdge(comp, e, component[e.from]);
          hasCycle[component[e.from]] := true;
        }
        i := i + 1;
      }
      assert edges[..|edges|] == edges;
    }

    /** Components of all nodes, and which of them have a cycle or a symbol-backed parameter. */
    method Summarize() returns (component: array<int>, count: nat, hasStatic: array<bool>, hasCycle: array<bool>)
      requires Valid()
      ensures component.Length == hasStatic.Length == hasCycle.Length == |nodes| && count <= |nodes|
      ensures forall j :: 0 <= j < |nodes| ==> 0 <= component[j] < count
      ensures forall j :: 0 <= j < |nodes| ==> (OnCycle(edges, j) <==> hasCycle[component[j]])
      ensures forall j :: 0 <= j < |nodes| && nodes[j].hasStaticParams ==> hasStatic[component[j]]
    {
      var finder := new Finder(edges, |nodes|);
      finder.FindComponents();
      component, count := finder.component, finder.componentCount;
      ghost var s := finder.Now();
      hide Reach, OnCycle, Mutual;
      hasStatic := MarkStatic(component);
      hasCycle := MarkCycles(component, finder.componentSizes, count);
      assert component[..] == s.comp;
      forall j: nat | j < |nodes|
        ensures OnCycle(edges, j) <==> hasCycle[component[j]]
      {
        CycleTest(s, edges, j);
      }
    }

    /** Analyze's answer at the level of node numbers: the reported node, if any. */
    method FindOffender() returns (offender: Option<nat>)
      requires Valid()
      ensures offender.None? ==> forall j :: 0 <= j < |nodes| && nodes[j].hasStaticParams ==> !OnCycle(edges, j)
      ensures offender.Some? ==>
        offender.value < |nodes| && nodes[offender.value].hasStaticParams && OnCycle(edges, offender.value)
    {
      var component, count, hasStatic, hasCycle := Summarize();
      hide *;
      var i := 0;
      while i < count
        invariant 0 <= i <= count
        invariant forall j :: 0 <= j < |nodes| && nodes[j].hasStaticParams && component[j] < i ==> !hasCycle[component[j]]
      {
        if !hasCycle[i] || !hasStatic[i] {
          i := i + 1;
          continue;
        }
        var j := 0;
        while j < |nodes|
          invariant 0 <= j <= |nodes|
          invariant forall k :: 0 <= k < j && nodes[k].hasStaticParams ==> component[k] != i
        {
          if component[j] == i && nodes[j].hasStaticParams {
            return Some(j);
          }
          j := j + 1;
        }
        i := i + 1;
      }
      return None;
    }

    /** Reports a function with symbol-backed parameters that can re-enter itself, if there is one.
        The compiler stops with an error at the first one found. */
    method Analyze() returns (offender: Option<Function>)
      requires Valid()
      ensures offender.None? <==> forall f :: f in Functions() && f.staticParams ==> !Reenters(Calls(), f)
      ensures offender.Some? ==>
        offender.value in Functions() && offender.value.staticParams && Reenters(Calls(), offender.value)
    {
      if |nodes| <= 0 {
        return None;
      }
      var found := FindOffender();
      forall j: nat | j < |nodes|
        ensures OnCycle(edges, j) <==> Reenters(Calls(), nodes[j].fn)
      {
        CycleIsReentry(nodes, edges, j);
      }
      return if found.None? then None else Some(nodes[found.value].fn);
    }
  }
}