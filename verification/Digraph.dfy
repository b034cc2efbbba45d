/** Finite directed graphs as adjacency maps, and reachability along walks.
    A node without an entry has no successors. */
module Digraph {

  type Graph<!N> = map<N, set<N>>

  function Succ<N>(g: Graph<N>, n: N): set<N> {
    if n in g then g[n] else {}
  }

  /** Every key and every target. */
  ghost function Nodes<N>(g: Graph<N>): set<N> {
    g.Keys + set u, v | u in g && v in g[u] :: v
  }

  ghost predicate Walk<N>(g: Graph<N>, p: seq<N>, u: N, v: N) {
    && |p| > 0
    && p[0] == u
    && p[|p| - 1] == v
    && forall i :: 0 < i < |p| ==> p[i] in Succ(g, p[i - 1])
  }

  ghost predicate Reach<N(!new)>(g: Graph<N>, u: N, v: N) {
    exists p :: Walk(g, p, u, v)
  }

  ghost predicate Mutual<N(!new)>(g: Graph<N>, u: N, v: N) {
    Reach(g, u, v) && Reach(g, v, u)
  }

  lemma ReachSelf<N(!new)>(g: Graph<N>, u: N)
    ensures Reach(g, u, u)
  {
    assert Walk(g, [u], u, u);
  }

  lemma ReachEdge<N(!new)>(g: Graph<N>, u: N, v: N)
    requires v in Succ(g, u)
    ensures Reach(g, u, v)
  {
    assert Walk(g, [u, v], u, v);
  }

  lemma ReachTrans<N(!new)>(g: Graph<N>, u: N, v: N, w: N)
    requires Reach(g, u, v) && Reach(g, v, w)
    ensures Reach(g, u, w)
  {
    var p :| Walk(g, p, u, v);
    var q :| Walk(g, q, v, w);
    var r := p + q[1..];
    forall i | 0 < i < |r| ensures r[i] in Succ(g, r[i - 1]) {
      if i >= |p| {
        assert r[i] == q[i - |p| + 1];
        assert r[i - 1] == q[i - |p|];
      }
    }
    assert Walk(g, r, u, w);
  }

  /** A set closed under successors traps every walk that starts in it. */
  lemma {:induction false} ClosedTrapsWalk<N>(g: Graph<N>, s: set<N>, p: seq<N>, u: N, v: N)
    requires forall x :: x in s ==> Succ(g, x) <= s
    requires u in s && Walk(g, p, u, v)
    ensures v in s
    decreases |p|
  {
    if |p| > 1 {
      assert p[1] in Succ(g, p[0]);
      var q := p[1..];
      forall i | 0 < i < |q| ensures q[i] in Succ(g, q[i - 1]) {
        assert p[i + 1] in Succ(g, p[i]);
      }
      ClosedTrapsWalk(g, s, q, p[1], v);
    }
  }
}
