/** What the strongly-connected-component search knows at one moment, as a value, and the
    invariant its recursion keeps. `gray` holds the calls still active. */
module TarjanState {
  import opened Reachability

  datatype Snap = Snap(n: nat, idx: seq<int>, ctr: nat, stk: seq<nat>, on: seq<bool>,
                       comp: seq<int>, sizes: seq<int>, cc: nat)

  function Members(comp: seq<int>, c: int): set<nat> {
    set v: nat | v < |comp| && comp[v] == c
  }

  function Unvisited(s: Snap): set<nat> {
    set v: nat | v < |s.idx| && s.idx[v] < 0
  }

  ghost predicate Shape(s: Snap) {
    |s.idx| == s.n && |s.on| == s.n && |s.comp| == s.n && |s.sizes| == s.n
  }

  ghost predicate InRange(edges: seq<Edge>, n: nat) {
    forall e :: e in edges ==> e.from < n && e.to < n
  }

  ghost predicate Numbered(s: Snap)
    requires Shape(s)
  {
    forall v :: 0 <= v < s.n ==> -1 <= s.idx[v] < s.ctr
  }

  /** The stack lists, in numbering order, exactly the visited nodes without a component. */
  ghost predicate StackOk(s: Snap)
    requires Shape(s)
  {
    && (forall i :: 0 <= i < |s.stk| ==> s.stk[i] < s.n && s.idx[s.stk[i]] >= 0 && s.on[s.stk[i]])
    && (forall i, j :: 0 <= i < j < |s.stk| ==> s.idx[s.stk[i]] < s.idx[s.stk[j]])
    && (forall v: nat :: v < s.n && s.on[v] ==> v in s.stk)
    && (forall v :: 0 <= v < s.n ==> -1 <= s.comp[v] < s.cc)
    && (forall v :: 0 <= v < s.n ==> (s.comp[v] >= 0 <==> s.idx[v] >= 0 && !s.on[v]))
  }

  ghost predicate SizesOk(s: Snap)
    requires Shape(s)
  {
    s.cc <= s.n && forall c :: 0 <= c < s.cc ==> s.sizes[c] == |Members(s.comp, c)| >= 1
  }

  /** Edges out of a node whose call has returned never lead to an unvisited node. */
  ghost predicate NoEscape(s: Snap, edges: seq<Edge>, gray: set<nat>)
    requires Shape(s) && InRange(edges, s.n)
  {
    forall e :: e in edges && s.idx[e.from] >= 0 && e.from !in gray ==> s.idx[e.to] >= 0
  }

  /** Components only point at components numbered no higher. */
  ghost predicate Downward(s: Snap, edges: seq<Edge>)
    requires Shape(s) && InRange(edges, s.n)
  {
    forall e :: e in edges && s.comp[e.from] >= 0 ==> 0 <= s.comp[e.to] <= s.comp[e.from]
  }

  /** Every node without a component leads back to an active call no younger than itself. */
  ghost predicate Anchored(s: Snap, edges: seq<Edge>, gray: set<nat>)
    requires Shape(s) && Active(s, gray)
  {
    forall v: nat :: v < s.n ==> HasAnchor(s, edges, gray, v)
  }

  ghost predicate HasAnchor(s: Snap, edges: seq<Edge>, gray: set<nat>, v: nat)
    requires Shape(s) && Active(s, gray) && v < s.n
  {
    s.on[v] ==> exists z :: Anchor(s, edges, gray, v, z)
  }

  ghost predicate Active(s: Snap, gray: set<nat>)
    requires Shape(s)
  {
    forall z :: z in gray ==> z < s.n && s.on[z]
  }

  ghost predicate Anchor(s: Snap, edges: seq<Edge>, gray: set<nat>, v: nat, z: nat)
    requires Shape(s) && Active(s, gray) && v < s.n
  {
    z in gray && s.idx[z] <= s.idx[v] && Reach(edges, v, z)
  }

  /** Every active call leads to every node on the stack that is no older than itself. */
  ghost predicate Covers(s: Snap, edges: seq<Edge>, gray: set<nat>)
    requires Shape(s) && Active(s, gray)
  {
    forall z, v: nat :: z in gray && v < s.n && s.on[v] && s.idx[z] <= s.idx[v] ==> Reach(edges, z, v)
  }

  /** Finished nodes share a component exactly when each reaches the other. */
  ghost predicate ComponentsOk(s: Snap, edges: seq<Edge>)
    requires Shape(s)
  {
    forall u: nat, v: nat :: u < s.n && v < s.n && s.comp[u] >= 0 && s.comp[v] >= 0 ==>
      (s.comp[u] == s.comp[v] <==> Mutual(edges, u, v))
  }

  ghost predicate Good(s: Snap, edges: seq<Edge>, gray: set<nat>) {
    && Shape(s) && InRange(edges, s.n) && Active(s, gray) && Numbered(s) && StackOk(s) && SizesOk(s)
    && NoEscape(s, edges, gray) && Downward(s, edges)
    && Anchored(s, edges, gray) && Covers(s, edges, gray) && ComponentsOk(s, edges)
  }

  /** What a search step never undoes: numbers, components and the stack below. */
  ghost predicate Grows(s: Snap, t: Snap) {
    && Shape(s) && Shape(t) && s.n == t.n && s.stk <= t.stk && s.ctr <= t.ctr && s.cc <= t.cc
    && (forall v :: 0 <= v < s.n && s.idx[v] >= 0 ==> t.idx[v] == s.idx[v])
    && (forall v :: 0 <= v < s.n && s.comp[v] >= 0 ==> t.comp[v] == s.comp[v])
    && (forall v :: 0 <= v < s.n && t.idx[v] < 0 ==> s.idx[v] < 0)
    && (forall v :: 0 <= v < s.n && s.idx[v] < 0 && t.idx[v] >= 0 ==> t.idx[v] >= s.ctr)
  }

  lemma GrowsTrans(s: Snap, t: Snap, r: Snap)
    requires Grows(s, t) && Grows(t, r)
    ensures Grows(s, r)
  {
  }

  lemma GrowsSelf(s: Snap)
    requires Shape(s)
    ensures Grows(s, s)
  {
  }

  /** Among edges out of the stacked nodes numbered from `base` up (all edges of those nodes, but
      only the first `i` edges for v itself), none leads to a stacked node numbered below both
      `base` and `low`. */
  ghost predicate LowCovers(s: Snap, edges: seq<Edge>, base: int, v: nat, i: nat, low: int)
    requires Shape(s) && InRange(edges, s.n) && i <= |edges|
  {
    forall k :: 0 <= k < |edges| ==> LowCoversEdge(s, edges[k], base, v, k < i, low)
  }

  ghost predicate LowCoversEdge(s: Snap, e: Edge, base: int, v: nat, done: bool, low: int)
    requires Shape(s) && e.from < s.n && e.to < s.n
  {
    s.on[e.from] && s.idx[e.from] >= base && (e.from == v ==> done) && s.on[e.to] && s.idx[e.to] < base
    ==> low <= s.idx[e.to]
  }

  /** `low` is the number of some stacked node that v reaches. */
  ghost predicate LowReached(s: Snap, edges: seq<Edge>, v: nat, low: int)
    requires Shape(s)
  {
    exists y: nat :: y < s.n && s.on[y] && s.idx[y] == low && Reach(edges, v, y)
  }

  /** Nodes visited before, other than `except`, keep their low-link. */
  ghost predicate KeepsLow(s: Snap, before: seq<int>, after: seq<int>, except: int) {
    && Shape(s) && |before| == |after| == s.n
    && forall x :: 0 <= x < s.n && x != except && s.idx[x] >= 0 ==> after[x] == before[x]
  }

  lemma KeepsLowTrans(s: Snap, t: Snap, v: int, a: seq<int>, b: seq<int>, c: seq<int>)
    requires KeepsLow(s, a, b, v) && KeepsLow(t, b, c, v) && Grows(s, t)
    ensures KeepsLow(s, a, c, v)
  {
  }

  lemma KeepsLowSelf(s: Snap, a: seq<int>, v: int)
    requires Shape(s) && |a| == s.n
    ensures KeepsLow(s, a, a, v)
  {
  }

  lemma KeepsLowSet(s: Snap, a: seq<int>, b: seq<int>, v: nat, low: int)
    requires KeepsLow(s, a, b, v) && v < |b|
    ensures KeepsLow(s, a, b[v := low], v)
  {
  }

  lemma KeepsLowBelow(s: Snap, a: seq<int>, c: seq<int>, gray: set<nat>, t: Snap, v: nat)
    requires Inside(s, t, gray, v) && |a| == s.n && KeepsLow(t, a[v := s.ctr], c, v)
    ensures KeepsLow(s, a, c, -1)
  {
  }

  lemma KeepsLowCall(s: Snap, a: seq<int>, b: seq<int>, v: nat)
    requires KeepsLow(s, a, b, -1) && v < s.n && s.idx[v] >= 0
    ensures KeepsLow(s, a, b, v) && |a| == |b| == s.n && b[v] == a[v]
  {
  }

  /** Every active call leads to v. */
  ghost predicate AllReach(edges: seq<Edge>, gray: set<nat>, v: nat) {
    forall z :: z in gray ==> Reach(edges, z, v)
  }

  // ----- entering a node -----

  function Enter(s: Snap, v: nat): Snap
    requires Shape(s) && v < s.n
  {
    s.(idx := s.idx[v := s.ctr], ctr := s.ctr + 1, stk := s.stk + [v], on := s.on[v := true])
  }

  lemma EnterShape(s: Snap, v: nat)
    requires Shape(s) && Numbered(s) && StackOk(s) && v < s.n && s.idx[v] < 0
    ensures var t := Enter(s, v); Shape(t) && Numbered(t) && StackOk(t) && Grows(s, t)
    ensures !s.on[v] && s.comp[v] < 0
  {
    assert !s.on[v];
  }

  lemma EnterGood(s: Snap, edges: seq<Edge>, gray: set<nat>, v: nat)
    requires Good(s, edges, gray) && v < s.n && s.idx[v] < 0
    requires AllReach(edges, gray, v)
    ensures Good(Enter(s, v), edges, gray + {v})
    ensures Grows(s, Enter(s, v)) && v !in gray
  {
    hide Reach;
    EnterShape(s, v);
    var t := Enter(s, v);
    hide StackOk, Grows;
    ReachSelf(edges, v);
    forall u: nat | u < t.n
      ensures HasAnchor(t, edges, gray + {v}, u)
    {
      if u == v {
        assert Anchor(t, edges, gray + {v}, u, v);
      } else if t.on[u] {
        assert HasAnchor(s, edges, gray, u);
        var z :| Anchor(s, edges, gray, u, z);
        assert Anchor(t, edges, gray + {v}, u, z);
      }
    }
  }

  // ----- following an edge -----

  lemma CallersReach(edges: seq<Edge>, gray: set<nat>, v: nat, w: nat)
    requires Edge(v, w) in edges && AllReach(edges, gray, v)
    ensures AllReach(edges, gray + {v}, w)
  {
    hide Reach;
    ReachEdge(edges, v, w);
    forall z | z in gray ensures Reach(edges, z, w) {
      ReachTrans(edges, z, v, w);
    }
  }

  /** A node stacked before and after a deeper call kept its number; one numbered below the
      call's first number was stacked before it. */
  lemma StackedBefore(s: Snap, t: Snap, u: nat)
    requires Grows(s, t) && StackOk(s) && StackOk(t) && Numbered(t) && u < s.n && t.on[u]
    ensures if s.idx[u] >= 0 then s.on[u] && t.idx[u] == s.idx[u] else t.idx[u] >= s.ctr
  {
    assert t.comp[u] < 0 && t.idx[u] >= 0 by { assert u in t.stk; }
  }

  lemma StaysStacked(s: Snap, t: Snap, y: nat)
    requires Grows(s, t) && StackOk(s) && StackOk(t) && y < s.n && s.on[y]
    ensures t.on[y] && t.idx[y] == s.idx[y]
  {
    var k :| 0 <= k < |s.stk| && s.stk[k] == y;
    assert t.stk[k] == y;
  }

  lemma ReachedAfterCall(s: Snap, t: Snap, edges: seq<Edge>, v: nat, low: int)
    requires Grows(s, t) && StackOk(s) && StackOk(t) && LowReached(s, edges, v, low)
    ensures LowReached(t, edges, v, low)
  {
    hide Reach;
    var y: nat :| y < s.n && s.on[y] && s.idx[y] == low && Reach(edges, v, y);
    hide StackOk, Grows;
    assert t.on[y] && t.idx[y] == s.idx[y] by { StaysStacked(s, t, y); }
  }

  lemma ReachedThrough(t: Snap, edges: seq<Edge>, v: nat, w: nat, low: int)
    requires Shape(t) && Edge(v, w) in edges && LowReached(t, edges, w, low)
    ensures LowReached(t, edges, v, low)
  {
    hide Reach;
    var y: nat :| y < t.n && t.on[y] && t.idx[y] == low && Reach(edges, w, y);
    ReachEdge(edges, v, w);
    ReachTrans(edges, v, w, y);
  }

  /** The bound on old edges survives a recursive call on the i-th edge's target. */
  lemma CoversAfterCall(s: Snap, t: Snap, edges: seq<Edge>, base: int, v: nat, w: nat, i: nat, low: int, wlow: int,
                        k: nat)
    requires Grows(s, t) && StackOk(s) && StackOk(t) && Numbered(t) && InRange(edges, s.n)
    requires i < |edges| && edges[i] == Edge(v, w) && s.idx[w] < 0 && s.idx[v] >= 0 && base <= s.ctr
    requires k < |edges| && LowCoversEdge(s, edges[k], base, v, k < i, low)
    requires LowCoversEdge(t, edges[k], s.ctr, w, true, wlow)
    ensures LowCoversEdge(t, edges[k], base, v, k < i + 1, if wlow < low then wlow else low)
  {
    var e := edges[k];
    if t.on[e.from] && t.on[e.to] {
      StackedBefore(s, t, e.from);
      StackedBefore(s, t, e.to);
    }
  }

  /** What is known of v while its edges are followed: the first i are done. */
  ghost predicate Scanning(s: Snap, edges: seq<Edge>, base: int, v: nat, i: nat, low: int) {
    && Shape(s) && InRange(edges, s.n) && v < s.n && i <= |edges|
    && s.idx[v] == base && low <= base && LowReached(s, edges, v, low)
    && LowCovers(s, edges, base, v, i, low)
    && (forall k :: 0 <= k < i && edges[k].from == v ==> s.idx[edges[k].to] >= 0)
  }

  /** What a finished call to w tells its caller. */
  ghost predicate Returned(s: Snap, t: Snap, edges: seq<Edge>, w: nat, low: int) {
    && Grows(s, t) && InRange(edges, s.n) && w < s.n && s.idx[w] < 0 && t.idx[w] == s.ctr && low <= t.idx[w]
    && (if t.on[w] then LowReached(t, edges, w, low) else low == t.idx[w])
    && (forall k :: 0 <= k < |edges| ==> LowCoversEdge(t, edges[k], s.ctr, w, true, low))
  }

  lemma ScanFacts(s: Snap, edges: seq<Edge>, base: int, v: nat, i: nat, low: int)
    requires Scanning(s, edges, base, v, i, low)
    ensures Shape(s) && v < s.n && s.idx[v] == base && low <= base
    ensures forall e :: e in edges ==> e.from < s.n && e.to < s.n
  {
  }

  lemma GoodFacts(s: Snap, edges: seq<Edge>, gray: set<nat>)
    requires Good(s, edges, gray)
    ensures StackOk'(s) && Shape(s) && InRange(edges, s.n) && SizesOk(s)
    ensures Active(s, gray)
  {
  }

  /** s before a node was entered, t while its edges are followed. */
  ghost predicate Inside(s: Snap, t: Snap, gray: set<nat>, v: nat) {
    && StackOk'(s) && Active(s, gray) && v < s.n && s.idx[v] < 0 && v !in gray
    && Grows(s, t) && s.stk + [v] <= t.stk
  }

  lemma InsideStarts(s: Snap, edges: seq<Edge>, gray: set<nat>, v: nat)
    requires Good(s, edges, gray) && v < s.n && s.idx[v] < 0 && v !in gray && Grows(s, Enter(s, v))
    ensures Inside(s, Enter(s, v), gray, v)
  {
  }

  lemma InsideGrows(s: Snap, t: Snap, r: Snap, gray: set<nat>, v: nat)
    requires Inside(s, t, gray, v) && Grows(t, r)
    ensures Inside(s, r, gray, v)
  {
  }

  lemma InsideShrinks(s: Snap, t: Snap, gray: set<nat>, v: nat)
    requires Inside(s, t, gray, v) && t.idx[v] >= 0
    ensures Unvisited(t) < Unvisited(s)
    ensures forall x :: 0 <= x < s.n && s.idx[x] >= 0 ==> t.idx[x] >= 0
  {
    assert v in Unvisited(s) && v !in Unvisited(t);
  }

  lemma GrowsShrinks(s: Snap, t: Snap)
    requires Grows(s, t)
    ensures Unvisited(t) <= Unvisited(s)
  {
  }

  lemma InsideTop(s: Snap, t: Snap, gray: set<nat>, v: nat)
    requires Inside(s, t, gray, v)
    ensures |s.stk| < |t.stk| && t.stk[|s.stk|] == v && t.stk[..|s.stk|] == s.stk
  {
  }

  lemma ScanAfterCall(s: Snap, t: Snap, edges: seq<Edge>, base: int, v: nat, w: nat, i: nat, low: int, wlow: int)
    requires StackOk'(s) && StackOk'(t) && Scanning(s, edges, base, v, i, low) && Returned(s, t, edges, w, wlow)
    requires i < |edges| && edges[i] == Edge(v, w)
    ensures Scanning(t, edges, base, v, i + 1, if wlow < low then wlow else low)
  {
    hide Reach;
    var low' := if wlow < low then wlow else low;
    assert s.idx[v] < s.ctr;
    forall k | 0 <= k < |edges|
      ensures LowCoversEdge(t, edges[k], base, v, k < i + 1, low')
    {
      hide Grows, StackOk, Numbered;
      assert LowCoversEdge(s, edges[k], base, v, k < i, low);
      CoversAfterCall(s, t, edges, base, v, w, i, low, wlow, k);
    }
    ReachedAfterCall(s, t, edges, v, low);
    if wlow < low {
      ReachedThrough(t, edges, v, w, wlow);
    }
  }

  ghost predicate StackOk'(s: Snap) {
    Shape(s) && Numbered(s) && StackOk(s)
  }

  lemma ScanSkips(s: Snap, edges: seq<Edge>, base: int, v: nat, i: nat, low: int)
    requires Scanning(s, edges, base, v, i, low) && i < |edges|
    requires edges[i].from != v || s.idx[edges[i].to] >= 0
    requires edges[i].from == v ==> !s.on[edges[i].to] || low <= s.idx[edges[i].to]
    ensures Scanning(s, edges, base, v, i + 1, low)
  {
    CoversAfterSkip(s, edges, base, v, i, low, low);
  }

  lemma ScanLowers(s: Snap, edges: seq<Edge>, base: int, v: nat, i: nat, low: int)
    requires Scanning(s, edges, base, v, i, low) && i < |edges|
    requires edges[i].from == v && s.on[edges[i].to] && 0 <= s.idx[edges[i].to] < low
    ensures Scanning(s, edges, base, v, i + 1, s.idx[edges[i].to])
  {
    var w := edges[i].to;
    CoversAfterSkip(s, edges, base, v, i, low, s.idx[w]);
    ReachEdge(edges, v, w);
  }

  lemma FollowCall(t: Snap, r: Snap, edges: seq<Edge>, gray: set<nat>, base: int, v: nat, w: nat, i: nat, low: int,
                   wlow: int)
    requires Scanning(t, edges, base, v, i, low) && Good(t, edges, gray + {v})
    requires Good(r, edges, gray + {v}) && Returned(t, r, edges, w, wlow)
    requires i < |edges| && edges[i] == Edge(v, w)
    ensures Grows(t, r) && Scanning(r, edges, base, v, i + 1, if wlow < low then wlow else low)
  {
    GoodFacts(t, edges, gray + {v});
    GoodFacts(r, edges, gray + {v});
    hide Reach, Good, StackOk';
    ScanAfterCall(t, r, edges, base, v, w, i, low, wlow);
  }

  /** Looking at a visited target. */
  lemma CoversAfterSkip(s: Snap, edges: seq<Edge>, base: int, v: nat, i: nat, low: int, low': int)
    requires Shape(s) && InRange(edges, s.n) && i < |edges| && LowCovers(s, edges, base, v, i, low)
    requires low' <= low && (edges[i].from == v && s.on[edges[i].to] ==> low' <= s.idx[edges[i].to])
    ensures LowCovers(s, edges, base, v, i + 1, low')
  {
    forall k | 0 <= k < |edges|
      ensures LowCoversEdge(s, edges[k], base, v, k < i + 1, low')
    {
      assert LowCoversEdge(s, edges[k], base, v, k < i, low);
    }
  }

  // ----- leaving a node that is not the root of its component -----

  lemma LeaveNonRoot(s: Snap, edges: seq<Edge>, gray: set<nat>, v: nat, low: int)
    requires Good(s, edges, gray + {v}) && v !in gray
    requires forall e :: e in edges && e.from == v ==> s.idx[e.to] >= 0
    requires LowReached(s, edges, v, low) && low < s.idx[v]
    ensures Good(s, edges, gray)
  {
    hide Reach, Numbered, StackOk, Downward, ComponentsOk, SizesOk;
    var y: nat :| y < s.n && s.on[y] && s.idx[y] == low && Reach(edges, v, y);
    assert HasAnchor(s, edges, gray + {v}, y);
    var base :| Anchor(s, edges, gray + {v}, y, base);
    forall u: nat | u < s.n && s.on[u]
      ensures HasAnchor(s, edges, gray, u)
    {
      assert HasAnchor(s, edges, gray + {v}, u);
      var z :| Anchor(s, edges, gray + {v}, u, z);
      if z == v {
        ReachTrans(edges, u, v, y);
        ReachTrans(edges, u, y, base);
        assert Anchor(s, edges, gray, u, base);
      } else {
        assert Anchor(s, edges, gray, u, z);
      }
    }
  }

  // ----- leaving a root: its component is popped -----

  /** u is popped when v's component is closed: it is on the stack, no older than v. */
  predicate Above(s: Snap, v: nat, u: nat)
    requires Shape(s) && v < s.n && u < s.n
  {
    s.on[u] && s.idx[u] >= s.idx[v]
  }

  /** t is s with v and everything stacked above it moved into a new component. */
  ghost predicate Popped(s: Snap, t: Snap, v: nat) {
    && Shape(s) && Shape(t) && v < s.n
    && t.n == s.n && t.idx == s.idx && t.ctr == s.ctr && t.cc == s.cc + 1
    && (forall u: nat :: u < s.n ==> t.on[u] == (s.on[u] && !Above(s, v, u)))
    && (forall u: nat :: u < s.n ==> t.comp[u] == if Above(s, v, u) then s.cc else s.comp[u])
  }

  lemma {:induction false} DistinctCount(q: seq<nat>, m: set<nat>)
    requires forall i, j :: 0 <= i < j < |q| ==> q[i] != q[j]
    requires forall x :: x in m <==> x in q
    ensures |m| == |q|
  {
    if |q| == 0 {
      assert m == {};
    } else {
      DistinctCount(q[1..], m - {q[0]});
    }
  }

  /** Nonempty disjoint classes are no more numerous than the nodes they divide. */
  lemma {:induction false} ClassBound(comp: seq<int>, c: nat, rest: set<nat>)
    requires forall k :: 0 <= k < c ==> |Members(comp, k)| >= 1
    requires forall v :: v in rest ==> v < |comp| && (comp[v] < 0 || comp[v] >= c)
    ensures c + |rest| <= |comp|
    decreases c
  {
    if c == 0 {
      BoundedSize(rest, |comp|);
    } else {
      assert Members(comp, c - 1) != {};
      var w :| w in Members(comp, c - 1);
      ClassBound(comp, c - 1, rest + {w});
    }
  }

  lemma {:induction false} BoundedSize(a: set<nat>, n: nat)
    requires forall x :: x in a ==> x < n
    ensures |a| <= n
  {
    if n == 0 {
      assert a == {};
    } else {
      BoundedSize(a - {n - 1}, n - 1);
    }
  }

  /** t is s with the stack entries from `top` up moved into component s.cc. */
  ghost predicate PoppedTo(s: Snap, t: Snap, top: nat) {
    && Shape(s) && Shape(t) && t.n == s.n && t.idx == s.idx && t.ctr == s.ctr && t.cc == s.cc + 1
    && top <= |s.stk| && t.stk == s.stk[..top] && s.cc < s.n
    && (forall k :: 0 <= k < |s.stk| ==> s.stk[k] < s.n)
    && (forall k :: 0 <= k < top ==> t.on[s.stk[k]] && t.comp[s.stk[k]] == s.comp[s.stk[k]])
    && (forall k :: top <= k < |s.stk| ==> !t.on[s.stk[k]] && t.comp[s.stk[k]] == s.cc)
    && (forall u: nat :: u < s.n && !s.on[u] ==> !t.on[u] && t.comp[u] == s.comp[u])
    && t.sizes == s.sizes[s.cc := |s.stk| - top]
  }

  lemma PopNothing(s: Snap, t: Snap)
    requires Shape(s) && StackOk(s) && s.cc < s.n
    requires t == s.(cc := s.cc + 1, sizes := s.sizes[s.cc := 0])
    ensures PoppedTo(s, t, |s.stk|)
  {
    assert s.stk[..|s.stk|] == s.stk;
  }

  /** The stack's top moved into component cid. */
  function TakeTop(t: Snap, cid: nat): Snap
    requires Shape(t) && 0 < |t.stk| && t.stk[|t.stk| - 1] < t.n && cid < t.n
  {
    var w := t.stk[|t.stk| - 1];
    t.(stk := t.stk[..|t.stk| - 1], on := t.on[w := false], comp := t.comp[w := cid],
       sizes := t.sizes[cid := t.sizes[cid] + 1])
  }

  lemma PopTop(s: Snap, t: Snap, height: nat)
    requires Shape(s) && StackOk(s) && PoppedTo(s, t, |t.stk|) && height < |t.stk|
    ensures Shape(t) && s.cc < s.n && |t.stk| <= |s.stk| && t.stk[|t.stk| - 1] == s.stk[|t.stk| - 1] < s.n
    ensures s.stk[|t.stk| - 1] == s.stk[height] <==> |t.stk| - 1 == height
  {
    if height < |t.stk| - 1 { StackDistinct(s, height, |t.stk| - 1); }
  }

  lemma PopOne(s: Snap, t: Snap)
    requires Shape(s) && StackOk(s) && PoppedTo(s, t, |t.stk|) && 0 < |t.stk|
    ensures PoppedTo(s, TakeTop(t, s.cc), |t.stk| - 1)
  {
    var top := |t.stk| - 1;
    forall k | 0 <= k < |s.stk| && k != top
      ensures s.stk[k] != s.stk[top]
    {
      StackDistinct(s, if k < top then k else top, if k < top then top else k);
    }
  }

  lemma StackDistinct(s: Snap, i: nat, j: nat)
    requires Shape(s) && StackOk(s) && i < j < |s.stk|
    ensures s.stk[i] != s.stk[j]
  {
    assert s.idx[s.stk[i]] < s.idx[s.stk[j]];
  }

  lemma PopDone(s: Snap, t: Snap, height: nat)
    requires Shape(s) && StackOk(s) && SizesOk(s) && PoppedTo(s, t, height) && height < |s.stk|
    ensures Popped(s, t, s.stk[height]) && StackOk(t) && SizesOk(t) && t.stk == s.stk[..height]
  {
    var v := s.stk[height];
    forall u: nat | u < s.n && s.on[u]
      ensures exists k :: 0 <= k < |s.stk| && s.stk[k] == u && (Above(s, v, u) <==> k >= height)
    {
      var k :| 0 <= k < |s.stk| && s.stk[k] == u;
      StackOrder(s, k, height);
    }
    assert Popped(s, t, v);
    PopSizes(s, t, height);
    PopStack(s, t, height);
  }

  lemma StackOrder(s: Snap, k: nat, height: nat)
    requires Shape(s) && StackOk(s) && height < |s.stk| && k < |s.stk|
    ensures s.idx[s.stk[k]] >= s.idx[s.stk[height]] <==> k >= height
  {
    if k < height { assert s.idx[s.stk[k]] < s.idx[s.stk[height]]; }
    if height < k { assert s.idx[s.stk[height]] < s.idx[s.stk[k]]; }
  }

  lemma PopStack(s: Snap, t: Snap, height: nat)
    requires Shape(s) && StackOk(s) && PoppedTo(s, t, height) && height < |s.stk|
    requires Popped(s, t, s.stk[height])
    ensures StackOk(t)
  {
    forall u: nat | u < t.n && t.on[u]
      ensures u in t.stk
    {
      var k :| 0 <= k < |s.stk| && s.stk[k] == u;
      assert t.stk[k] == u;
    }
    assert forall k :: 0 <= k < |t.stk| ==> t.stk[k] == s.stk[k];
  }

  lemma PopSizes(s: Snap, t: Snap, height: nat)
    requires Shape(s) && StackOk(s) && SizesOk(s) && PoppedTo(s, t, height) && height < |s.stk|
    ensures SizesOk(t)
  {
    hide StackOk, SizesOk;
    NewMembers(s, t, height);
    assert s.cc + 1 <= t.n && |t.sizes| == |s.sizes| && t.sizes[s.cc] == |s.stk| - height;
    assert forall c :: 0 <= c < s.cc ==> t.sizes[c] == s.sizes[c];
    forall c | 0 <= c < s.cc
      ensures t.sizes[c] == |Members(t.comp, c)| >= 1
    {
      OtherMembers(s, t, height, c);
      SizeOf(s, c);
    }
    hide PoppedTo;
    assert SizesOk(t) by { SizesFrom(t, s.cc); }
  }

  lemma SizeOf(s: Snap, c: nat)
    requires Shape(s) && SizesOk(s) && c < s.cc
    ensures s.sizes[c] == |Members(s.comp, c)| >= 1
  {
  }

  lemma SizesFrom(t: Snap, c0: nat)
    requires Shape(t) && t.cc == c0 + 1 <= t.n && t.sizes[c0] == |Members(t.comp, c0)| >= 1
    requires forall c :: 0 <= c < c0 ==> t.sizes[c] == |Members(t.comp, c)| >= 1
    ensures SizesOk(t)
  {
  }

  lemma NewMembers(s: Snap, t: Snap, height: nat)
    requires Shape(s) && StackOk(s) && PoppedTo(s, t, height) && height < |s.stk|
    ensures |Members(t.comp, s.cc)| == |s.stk| - height
  {
    var popped := s.stk[height..];
    var m := Members(t.comp, s.cc);
    forall x | x in popped
      ensures x in m
    {
      var k :| 0 <= k < |popped| && popped[k] == x;
      assert s.stk[height + k] == x;
    }
    forall x | x in m
      ensures x in popped
    {
      assert s.on[x];
      var k :| 0 <= k < |s.stk| && s.stk[k] == x;
      assert popped[k - height] == x;
    }
    forall i, j | 0 <= i < j < |popped|
      ensures popped[i] != popped[j]
    {
      StackDistinct(s, height + i, height + j);
    }
    DistinctCount(popped, m);
  }

  lemma OtherMembers(s: Snap, t: Snap, height: nat, c: int)
    requires Shape(s) && StackOk(s) && PoppedTo(s, t, height) && height < |s.stk|
    requires 0 <= c < s.cc
    ensures Members(t.comp, c) == Members(s.comp, c)
  {
    forall u: nat | u < s.n
      ensures t.comp[u] == c <==> s.comp[u] == c
    {
      if s.on[u] { var k :| 0 <= k < |s.stk| && s.stk[k] == u; }
    }
  }

  /** There is always room for one more stack entry and one more component. */
  lemma RoomLeft(s: Snap, v: nat)
    requires Shape(s) && Numbered(s) && StackOk(s) && SizesOk(s) && v < s.n
    ensures s.idx[v] < 0 ==> |s.stk| < s.n
    ensures s.comp[v] < 0 ==> s.cc < s.n
  {
    ClassBound(s.comp, s.cc, if s.comp[v] < 0 then {v} else {});
    if s.idx[v] < 0 { StackRoom(s, v); }
  }

  lemma StackRoom(s: Snap, v: nat)
    requires Shape(s) && StackOk(s) && v < s.n && s.idx[v] < 0
    ensures |s.stk| < s.n
  {
    var held := set x | x in s.stk;
    DistinctCount(s.stk, held);
    assert v !in held;
    BoundedSize(held + {v}, s.n);
  }

  lemma PoppedMeetsRoot(s: Snap, edges: seq<Edge>, gray: set<nat>, v: nat, u: nat)
    requires Good(s, edges, gray + {v}) && v < s.n && u < s.n && Above(s, v, u)
    requires forall z :: z in gray ==> s.idx[z] <= s.idx[v]
    ensures Mutual(edges, u, v)
  {
    hide Reach, Numbered, StackOk, Downward, ComponentsOk, SizesOk, NoEscape;
    assert HasAnchor(s, edges, gray + {v}, u);
    var z :| Anchor(s, edges, gray + {v}, u, z);
    assert Reach(edges, z, v);
    ReachTrans(edges, u, z, v);
  }

  /** The popped nodes are all mutually reachable. */
  lemma PoppedMutual(s: Snap, edges: seq<Edge>, gray: set<nat>, v: nat, u: nat, w: nat)
    requires Good(s, edges, gray + {v}) && v < s.n && u < s.n && w < s.n && Above(s, v, u) && Above(s, v, w)
    requires forall z :: z in gray ==> s.idx[z] <= s.idx[v]
    ensures Mutual(edges, u, w)
  {
    hide Reach, Good;
    PoppedMeetsRoot(s, edges, gray, v, u);
    PoppedMeetsRoot(s, edges, gray, v, w);
    ReachTrans(edges, u, v, w);
    ReachTrans(edges, w, v, u);
  }

  /** Nothing reachable from a finished node is unfinished. */
  lemma FinishedReach(s: Snap, edges: seq<Edge>, u: nat, w: nat)
    requires Shape(s) && InRange(edges, s.n) && Downward(s, edges)
    requires u < s.n && s.comp[u] >= 0 && Reach(edges, u, w)
    ensures w < s.n && s.comp[w] >= 0
  {
    ClosedUnderReach(edges, (x: nat) => x < s.n && s.comp[x] >= 0, u, w);
  }

  /** No edge leaves the popped nodes except into components already closed. */
  lemma PoppedDownward(s: Snap, t: Snap, edges: seq<Edge>, gray: set<nat>, v: nat)
    requires Good(s, edges, gray + {v}) && Popped(s, t, v)
    requires forall z :: z in gray ==> s.idx[z] < s.idx[v]
    requires forall e :: e in edges && e.from == v ==> s.idx[e.to] >= 0
    requires LowCovers(s, edges, s.idx[v], v, |edges|, s.idx[v])
    ensures Downward(t, edges)
  {
    hide Reach, Covers, Anchored, ComponentsOk, SizesOk;
    forall e | e in edges && t.comp[e.from] >= 0
      ensures 0 <= t.comp[e.to] <= t.comp[e.from]
    {
      if Above(s, v, e.from) {
        var k :| 0 <= k < |edges| && edges[k] == e;
        assert LowCoversEdge(s, edges[k], s.idx[v], v, k < |edges|, s.idx[v]);
        assert e.from !in gray;
        assert s.idx[e.to] >= 0;
      }
    }
  }

  lemma PoppedComponents(s: Snap, t: Snap, edges: seq<Edge>, gray: set<nat>, v: nat)
    requires Good(s, edges, gray + {v}) && Popped(s, t, v)
    requires forall z :: z in gray ==> s.idx[z] < s.idx[v]
    ensures ComponentsOk(t, edges)
  {
    hide Reach;
    forall u: nat, w: nat | u < t.n && w < t.n && t.comp[u] >= 0 && t.comp[w] >= 0
      ensures t.comp[u] == t.comp[w] <==> Mutual(edges, u, w)
    {
      PoppedPair(s, t, edges, gray, v, u, w);
    }
  }

  lemma PoppedPair(s: Snap, t: Snap, edges: seq<Edge>, gray: set<nat>, v: nat, u: nat, w: nat)
    requires Good(s, edges, gray + {v}) && Popped(s, t, v)
    requires forall z :: z in gray ==> s.idx[z] < s.idx[v]
    requires u < t.n && w < t.n && t.comp[u] >= 0 && t.comp[w] >= 0
    ensures t.comp[u] == t.comp[w] <==> Mutual(edges, u, w)
  {
    hide Reach, Covers, Anchored, SizesOk, NoEscape;
    if Above(s, v, u) && Above(s, v, w) {
      PoppedMutual(s, edges, gray, v, u, w);
    } else if Above(s, v, u) {
      if Reach(edges, w, u) { FinishedReach(s, edges, w, u); }
    } else if Above(s, v, w) {
      if Reach(edges, u, w) { FinishedReach(s, edges, u, w); }
    }
  }

  /** Closing v's component keeps the invariant and takes v off the active calls. */
  lemma LeaveRoot(s: Snap, t: Snap, edges: seq<Edge>, gray: set<nat>, v: nat)
    requires Good(s, edges, gray + {v}) && Popped(s, t, v)
    requires forall z :: z in gray ==> s.idx[z] < s.idx[v]
    requires forall e :: e in edges && e.from == v ==> s.idx[e.to] >= 0
    requires LowCovers(s, edges, s.idx[v], v, |edges|, s.idx[v])
    requires StackOk(t) && SizesOk(t)
    ensures Good(t, edges, gray)
  {
    PoppedDownward(s, t, edges, gray, v);
    PoppedComponents(s, t, edges, gray, v);
    hide Reach, Downward, ComponentsOk, SizesOk, StackOk, LowCovers;
    forall u: nat | u < t.n && t.on[u]
      ensures HasAnchor(t, edges, gray, u)
    {
      assert HasAnchor(s, edges, gray + {v}, u);
      var z :| Anchor(s, edges, gray + {v}, u, z);
      assert Anchor(t, edges, gray, u, z);
    }
  }

  /** From snapshot s with low-links a, following v's edges has led to t with low-links b. */
  ghost predicate Progress(s: Snap, a: seq<int>, t: Snap, b: seq<int>, edges: seq<Edge>, gray: set<nat>, base: int,
                           v: nat, i: nat) {
    && Good(t, edges, gray + {v}) && Grows(s, t) && v < |b| && KeepsLow(s, a, b, v)
    && Scanning(t, edges, base, v, i, b[v])
  }

  lemma ProgressStarts(s: Snap, a: seq<int>, edges: seq<Edge>, gray: set<nat>, base: int, v: nat)
    requires Good(s, edges, gray + {v}) && |a| == s.n && v < s.n && Scanning(s, edges, base, v, 0, a[v])
    ensures Progress(s, a, s, a, edges, gray, base, v, 0)
  {
  }

  lemma ProgressTrans(s: Snap, a: seq<int>, t: Snap, b: seq<int>, r: Snap, c: seq<int>, edges: seq<Edge>,
                      gray: set<nat>, base: int, v: nat, i: nat)
    requires Progress(s, a, t, b, edges, gray, base, v, i)
    requires Progress(t, b, r, c, edges, gray, base, v, i + 1)
    ensures Progress(s, a, r, c, edges, gray, base, v, i + 1)
  {
    hide Good, Scanning;
    GrowsTrans(s, t, r);
    KeepsLowTrans(s, t, v, a, b, c);
  }

  lemma ProgressSkips(s: Snap, a: seq<int>, t: Snap, b: seq<int>, edges: seq<Edge>, gray: set<nat>, base: int, v: nat,
                      i: nat)
    requires Progress(s, a, t, b, edges, gray, base, v, i) && i < |edges| && edges[i].from != v
    ensures Progress(s, a, t, b, edges, gray, base, v, i + 1)
  {
    hide Good;
    ScanSkips(t, edges, base, v, i, b[v]);
  }

  lemma ProgressFacts(s: Snap, a: seq<int>, t: Snap, b: seq<int>, edges: seq<Edge>, gray: set<nat>, base: int, v: nat,
                      i: nat)
    requires Progress(s, a, t, b, edges, gray, base, v, i)
    ensures Unvisited(t) <= Unvisited(s) && Good(t, edges, gray + {v}) && v < |b| && v < |t.idx|
    ensures Scanning(t, edges, base, v, i, b[v]) && t.idx[v] == base && Grows(s, t) && KeepsLow(s, a, b, v)
  {
    GrowsShrinks(s, t);
  }

  /** Right after v is entered no edge has been followed, so nothing needs covering. */
  lemma ScanStarts(s: Snap, edges: seq<Edge>, v: nat)
    requires Shape(s) && InRange(edges, s.n) && Numbered(s) && v < s.n
    ensures Scanning(Enter(s, v), edges, s.ctr, v, 0, s.ctr)
  {
    ReachSelf(edges, v);
  }

  /** Everything a call establishes by numbering v, before it looks at an edge. */
  lemma BeginVisit(s: Snap, edges: seq<Edge>, gray: set<nat>, v: nat)
    requires Good(s, edges, gray) && v < s.n && s.idx[v] < 0
    requires AllReach(edges, gray, v)
    ensures |s.stk| < s.n && Good(Enter(s, v), edges, gray + {v}) && Inside(s, Enter(s, v), gray, v)
    ensures Scanning(Enter(s, v), edges, s.ctr, v, 0, s.ctr)
  {
    RoomLeft(s, v);
    EnterGood(s, edges, gray, v);
    ScanStarts(s, edges, v);
    InsideStarts(s, edges, gray, v);
  }

  /** A call that cannot close its component leaves v stacked below its caller. */
  lemma ReturnsStacked(s: Snap, t: Snap, edges: seq<Edge>, gray: set<nat>, v: nat, low: int)
    requires Inside(s, t, gray, v)
    requires Good(t, edges, gray + {v}) && Scanning(t, edges, s.ctr, v, |edges|, low) && low < s.ctr
    ensures Good(t, edges, gray) && Returned(s, t, edges, v, low)
  {
    assert t.n == s.n;
    hide Reach, Grows, LowReached;
    forall e | e in edges && e.from == v
      ensures t.idx[e.to] >= 0
    {
      var k :| 0 <= k < |edges| && edges[k] == e;
    }
    LeaveNonRoot(t, edges, gray, v, low);
    CoversAll(t, edges, s.ctr, v, low);
  }

  lemma CoversAll(t: Snap, edges: seq<Edge>, base: int, v: nat, low: int)
    requires Scanning(t, edges, base, v, |edges|, low)
    ensures forall k :: 0 <= k < |edges| ==> LowCoversEdge(t, edges[k], base, v, true, low)
  {
    forall k | 0 <= k < |edges|
      ensures LowCoversEdge(t, edges[k], base, v, true, low)
    {
      assert LowCoversEdge(t, edges[k], base, v, k < |edges|, low);
    }
  }

  lemma CloseReady(t: Snap, edges: seq<Edge>, gray: set<nat>, v: nat)
    requires Good(t, edges, gray + {v})
    ensures v < t.n && t.cc < t.n && StackOk(t) && SizesOk(t)
  {
    assert t.on[v] by { assert v in gray + {v}; }
    RoomLeft(t, v);
  }

  /** A call that closes v's component leaves the stack as it found it. */
  lemma ReturnsClosed(s: Snap, t: Snap, r: Snap, edges: seq<Edge>, gray: set<nat>, v: nat)
    requires Inside(s, t, gray, v)
    requires Good(t, edges, gray + {v}) && Scanning(t, edges, s.ctr, v, |edges|, s.ctr)
    requires Popped(t, r, v) && StackOk(r) && SizesOk(r) && r.stk == s.stk
    ensures Good(r, edges, gray) && Grows(s, r) && Returned(s, r, edges, v, s.ctr)
  {
    hide Reach, LowReached;
    forall e | e in edges && e.from == v
      ensures t.idx[e.to] >= 0
    {
      var k :| 0 <= k < |edges| && edges[k] == e;
    }
    ActiveNumbers(s, t, gray);
    LeaveRoot(t, r, edges, gray, v);
    ClosedGrows(s, t, r, v);
    hide Good, StackOk;
  }

  lemma ActiveNumbers(s: Snap, t: Snap, gray: set<nat>)
    requires StackOk'(s) && Grows(s, t) && Active(s, gray)
    ensures forall z :: z in gray ==> z < s.n && t.idx[z] < s.ctr
  {
    forall z | z in gray
      ensures t.idx[z] < s.ctr
    {
      assert z in s.stk;
    }
  }

  lemma ClosedGrows(s: Snap, t: Snap, r: Snap, v: nat)
    requires Grows(s, t) && Popped(t, r, v) && r.stk == s.stk && StackOk'(t)
    ensures Grows(s, r)
  {
  }

  ghost predicate VisitedTo(s: Snap, i: nat) {
    i <= |s.idx| && forall x :: 0 <= x < i ==> s.idx[x] >= 0
  }

  lemma VisitedNext(s: Snap, i: nat)
    requires VisitedTo(s, i) && i < |s.idx| && s.idx[i] >= 0
    ensures VisitedTo(s, i + 1)
  {
  }

  lemma NobodyActive(edges: seq<Edge>, v: nat)
    ensures AllReach(edges, {}, v)
  {
  }

  lemma ReturnedVisits(s: Snap, t: Snap, edges: seq<Edge>, w: nat, low: int)
    requires Returned(s, t, edges, w, low) && VisitedTo(s, w)
    ensures VisitedTo(t, w + 1)
  {
  }

  /** The finished search: every node has a component, components are exactly the classes of
      mutual reachability, edges lead to no higher component, and the counts are right. */
  ghost predicate Complete(s: Snap, edges: seq<Edge>) {
    && Shape(s) && InRange(edges, s.n) && |s.stk| == 0 && s.cc <= s.n
    && (forall v :: 0 <= v < s.n ==> 0 <= s.comp[v] < s.cc)
    && (forall u: nat, v: nat :: u < s.n && v < s.n ==> (s.comp[u] == s.comp[v] <==> Mutual(edges, u, v)))
    && (forall e :: e in edges ==> s.comp[e.to] <= s.comp[e.from])
    && (forall c :: 0 <= c < s.cc ==> s.sizes[c] == |Members(s.comp, c)|)
  }

  /** Once every node is visited nothing is pending and the components are complete. */
  lemma NothingPending(s: Snap, edges: seq<Edge>)
    requires Good(s, edges, {}) && VisitedTo(s, s.n)
    ensures Complete(s, edges)
  {
    hide Reach;
    forall v: nat | v < s.n
      ensures !s.on[v]
    {
      assert HasAnchor(s, edges, {}, v);
    }
    EmptyStack(s);
  }

  lemma EmptyStack(s: Snap)
    requires Shape(s) && StackOk(s) && forall v: nat :: v < s.n ==> !s.on[v]
    ensures |s.stk| == 0
  {
    if 0 < |s.stk| {
      TopIsOn(s);
      assert false;
    }
  }

  lemma TopIsOn(s: Snap)
    requires Shape(s) && StackOk(s) && 0 < |s.stk|
    ensures exists v: nat :: v < s.n && s.on[v]
  {
    assert s.on[s.stk[0]];
  }

  predicate InnerEdge(comp: seq<int>, e: Edge, c: int) {
    e.from < |comp| && e.to < |comp| && comp[e.from] == c && comp[e.to] == c
  }

  /** The analysis' two tests for a cycle, a component of several nodes or an edge inside a
      component, together find exactly the nodes on cycles. */
  lemma CycleTest(s: Snap, edges: seq<Edge>, j: nat)
    requires Complete(s, edges) && j < s.n
    ensures OnCycle(edges, j) <==> s.sizes[s.comp[j]] > 1 || exists e :: e in edges && InnerEdge(s.comp, e, s.comp[j])
  {
    hide Reach, OnCycle;
    var c := s.comp[j];
    CycleByFirstStep(edges, j);
    if OnCycle(edges, j) {
      var w: nat :| Edge(j, w) in edges && Reach(edges, w, j);
      ReachEdge(edges, j, w);
      assert w < s.n;
      assert InnerEdge(s.comp, Edge(j, w), c);
    }
    if s.sizes[c] > 1 {
      var others := Members(s.comp, c) - {j};
      assert j in Members(s.comp, c) && |others| == |Members(s.comp, c)| - 1;
      var k :| k in others;
      MutualMakesCycle(edges, j, k);
    } else if exists e :: e in edges && InnerEdge(s.comp, e, c) {
      var e :| e in edges && InnerEdge(s.comp, e, c);
      if e.from != j {
        MutualMakesCycle(edges, j, e.from);
      } else {
        assert Mutual(edges, e.to, j);
      }
    }
  }
}
