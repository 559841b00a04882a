/** Directed graphs over numbered nodes, and reachability stated by explicit paths.
    Nothing here knows how the compiler searches the graph. */
module Reachability {

  datatype Edge = Edge(from: nat, to: nat)

  ghost predicate IsPath(edges: seq<Edge>, p: seq<nat>) {
    |p| > 0 && forall i :: 0 <= i < |p| - 1 ==> Edge(p[i], p[i + 1]) in edges
  }

  ghost predicate PathFrom(edges: seq<Edge>, p: seq<nat>, u: nat, v: nat) {
    IsPath(edges, p) && p[0] == u && p[|p| - 1] == v
  }

  /** Zero or more edges lead from u to v. */
  ghost predicate Reach(edges: seq<Edge>, u: nat, v: nat) {
    exists p :: PathFrom(edges, p, u, v)
  }

  ghost predicate Mutual(edges: seq<Edge>, u: nat, v: nat) {
    Reach(edges, u, v) && Reach(edges, v, u)
  }

  /** One or more edges lead from u back to u. */
  ghost predicate OnCycle(edges: seq<Edge>, u: nat) {
    exists p :: PathFrom(edges, p, u, u) && |p| > 1
  }

  lemma ReachSelf(edges: seq<Edge>, u: nat)
    ensures Reach(edges, u, u)
  {
    assert PathFrom(edges, [u], u, u);
  }

  lemma ReachEdge(edges: seq<Edge>, u: nat, v: nat)
    requires Edge(u, v) in edges
    ensures Reach(edges, u, v)
  {
    assert PathFrom(edges, [u, v], u, v);
  }

  lemma JoinPaths(edges: seq<Edge>, p: seq<nat>, q: seq<nat>, u: nat, v: nat, w: nat)
    requires PathFrom(edges, p, u, v) && PathFrom(edges, q, v, w)
    ensures PathFrom(edges, p + q[1..], u, w)
  {
    var r := p + q[1..];
    forall i | 0 <= i < |r| - 1
      ensures Edge(r[i], r[i + 1]) in edges
    {
      if i >= |p| - 1 {
        assert r[i] == q[i - |p| + 1] && r[i + 1] == q[i - |p| + 2];
      }
    }
  }

  lemma ReachTrans(edges: seq<Edge>, u: nat, v: nat, w: nat)
    requires Reach(edges, u, v) && Reach(edges, v, w)
    ensures Reach(edges, u, w)
  {
    var p :| PathFrom(edges, p, u, v);
    var q :| PathFrom(edges, q, v, w);
    JoinPaths(edges, p, q, u, v, w);
  }

  /** A node lies on a cycle exactly when one of its successors leads back to it. */
  lemma CycleByFirstStep(edges: seq<Edge>, u: nat)
    ensures OnCycle(edges, u) <==> exists w :: Edge(u, w) in edges && Reach(edges, w, u)
  {
    if OnCycle(edges, u) {
      var p :| PathFrom(edges, p, u, u) && |p| > 1;
      assert PathFrom(edges, p[1..], p[1], u);
      assert Edge(p[0], p[0 + 1]) in edges;
    }
    if exists w :: Edge(u, w) in edges && Reach(edges, w, u) {
      var w :| Edge(u, w) in edges && Reach(edges, w, u);
      var q :| PathFrom(edges, q, w, u);
      assert PathFrom(edges, [u, w], u, w);
      JoinPaths(edges, [u, w], q, u, w, u);
    }
  }

  /** Two distinct mutually reachable nodes lie on a common cycle. */
  lemma MutualMakesCycle(edges: seq<Edge>, u: nat, v: nat)
    requires u != v && Mutual(edges, u, v)
    ensures OnCycle(edges, u)
  {
    var p :| PathFrom(edges, p, u, v);
    var q :| PathFrom(edges, q, v, u);
    JoinPaths(edges, p, q, u, v, u);
  }

  /** Whatever an edge-closed set contains, it contains everything reachable from there. */
  lemma ClosedUnderReach(edges: seq<Edge>, inside: nat -> bool, u: nat, v: nat)
    requires forall e :: e in edges && inside(e.from) ==> inside(e.to)
    requires inside(u) && Reach(edges, u, v)
    ensures inside(v)
  {
    var p :| PathFrom(edges, p, u, v);
    ClosedAlongPath(edges, inside, p, |p| - 1);
  }

  lemma {:induction false} ClosedAlongPath(edges: seq<Edge>, inside: nat -> bool, p: seq<nat>, k: nat)
    requires forall e :: e in edges && inside(e.from) ==> inside(e.to)
    requires IsPath(edges, p) && inside(p[0]) && k < |p|
    ensures inside(p[k])
  {
    if k > 0 {
      ClosedAlongPath(edges, inside, p, k - 1);
      assert Edge(p[k - 1], p[k - 1 + 1]) in edges;
    }
  }
}
