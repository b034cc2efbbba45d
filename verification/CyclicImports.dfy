/** The import-cycle check: which edges are reported, the cycle shown for one of them, and
    the allowlist of known edges. Module names are strings. */
module CyclicImports {
  import opened Basics
  import opened Digraph
  import opened Ordering
  import Tarjan

  type Edge = (string, string)
  type ModuleGraph = Graph<string>

  // ----- Specification

  /** The edge lies on a closed walk. */
  ghost predicate OnCycle(g: ModuleGraph, s: string, t: string) {
    t in Succ(g, s) && Reach(g, t, s)
  }

  /** What `find_cycles` lists: an edge on a closed walk whose source shares a cycle with
      some other module. */
  ghost predicate Reported(g: ModuleGraph, s: string, t: string) {
    OnCycle(g, s, t) && exists w :: w != s && Mutual(g, s, w)
  }

  ghost predicate NoSelfLoops(g: ModuleGraph) {
    forall s :: s in g ==> s !in g[s]
  }

  /** Without self-imports the report is exactly the edges on closed walks. */
  lemma ReportedIffOnCycle(g: ModuleGraph, s: string, t: string)
    ensures s != t ==> (Reported(g, s, t) <==> OnCycle(g, s, t))
    ensures NoSelfLoops(g) ==> (Reported(g, s, t) <==> OnCycle(g, s, t))
  {
    if OnCycle(g, s, t) && s != t {
      ReachEdge(g, s, t);
      assert Mutual(g, s, t);
    }
  }

  /** A module importing itself and nothing else is on a closed walk but is not listed. */
  lemma LoneSelfLoopMissed()
    ensures OnCycle(map["a" := {"a"}], "a", "a")
    ensures !Reported(map["a" := {"a"}], "a", "a")
  {
    var g: ModuleGraph := map["a" := {"a"}];
    ReachSelf(g, "a");
    forall w | Reach(g, "a", w) ensures w == "a" {
      var p :| Walk(g, p, "a", w);
      ClosedTrapsWalk(g, {"a"}, p, "a", w);
    }
  }

  /** A self-import is listed exactly when its module is on a longer cycle too. */
  lemma SelfLoopListedIff(g: ModuleGraph, s: string)
    requires s in Succ(g, s)
    ensures Reported(g, s, s) <==> exists t :: t != s && OnCycle(g, s, t)
  {
    ReachSelf(g, s);
    if exists t :: t != s && OnCycle(g, s, t) {
      var t :| t != s && OnCycle(g, s, t);
      ReachEdge(g, s, t);
      assert Mutual(g, s, t);
    }
    if Reported(g, s, s) {
      var w :| w != s && Mutual(g, s, w);
      var t := LeavingEdge(g, s, w);
      ReachTrans(g, t, w, s);
      assert OnCycle(g, s, t);
    }
  }

  /** A walk to another node leaves its start by an edge. */
  lemma LeavingEdge(g: ModuleGraph, u: string, v: string) returns (w: string)
    requires Reach(g, u, v) && u != v
    ensures w != u && w in Succ(g, u) && Reach(g, w, v)
  {
    var p :| Walk(g, p, u, v);
    w := LeavingWalk(g, p, u, v);
  }

  lemma {:induction false} LeavingWalk(g: ModuleGraph, p: seq<string>, u: string, v: string) returns (w: string)
    requires Walk(g, p, u, v) && u != v
    ensures w != u && w in Succ(g, u) && Reach(g, w, v)
    decreases |p|
  {
    var q := p[1..];
    assert p[1] in Succ(g, p[0]);
    forall i | 0 < i < |q| ensures q[i] in Succ(g, q[i - 1]) {
      assert p[i + 1] in Succ(g, p[i]);
    }
    assert Walk(g, q, p[1], v);
    if p[1] == u {
      w := LeavingWalk(g, q, u, v);
    } else {
      w := p[1];
    }
  }

  // ----- find_cycles

  /** The edges inside one component. */
  function Inner(g: ModuleGraph, component: set<string>): set<Edge> {
    set s, t | s in component && t in Succ(g, s) && t in component :: (s, t)
  }

  /** The edges inside the first `n` components that have more than one member. */
  ghost function Collected(g: ModuleGraph, components: seq<set<string>>, n: nat): set<Edge>
    requires n <= |components|
  {
    set i, s, t | 0 <= i < n && |components[i]| > 1 && s in components[i] && t in Succ(g, s) && t in components[i]
      :: (s, t)
  }

  lemma CollectedIsReported(g: ModuleGraph, components: seq<set<string>>, e: Edge)
    requires Tarjan.Decomposition(g, components)
    ensures e in Collected(g, components, |components|) <==> Reported(g, e.0, e.1)
  {
    if e in Collected(g, components, |components|) {
      var i :| 0 <= i < |components| && |components[i]| > 1 && e.0 in components[i] && e.1 in Succ(g, e.0)
        && e.1 in components[i];
      Tarjan.SharedIffMutual(g, components, i, e.0, e.1);
      var w := OtherMember(components[i], e.0);
      Tarjan.SharedIffMutual(g, components, i, e.0, w);
    }
    if Reported(g, e.0, e.1) {
      assert e.0 in Nodes(g);
      var i :| 0 <= i < |components| && e.0 in components[i];
      ReachEdge(g, e.0, e.1);
      Tarjan.SharedIffMutual(g, components, i, e.0, e.1);
      var w :| w != e.0 && Mutual(g, e.0, w);
      Tarjan.SharedIffMutual(g, components, i, e.0, w);
      TwoMembers(components[i], e.0, w);
    }
  }

  lemma OtherMember(s: set<string>, x: string) returns (y: string)
    requires |s| > 1 && x in s
    ensures y in s && y != x
  {
    assert |s - {x}| == |s| - 1;
    y :| y in s - {x};
  }

  lemma TwoMembers(s: set<string>, x: string, y: string)
    requires x in s && y in s && x != y
    ensures |s| > 1
  {
    assert |s - {x}| == |s| - 1 && y in s - {x};
  }

  /** Sources in dictionary order; for one source, targets in dictionary order. */
  ghost predicate EdgeBefore(e: Edge, f: Edge) {
    Before(e.0, f.0) || (e.0 == f.0 && Before(e.1, f.1))
  }

  lemma PairIsBefore(e: Edge, f: Edge)
    requires PairLe(e, f) && e != f
    ensures EdgeBefore(e, f)
  {
    LexIsBefore(e.0, f.0);
    LexIsBefore(e.1, f.1);
  }

  ghost predicate StrictlySorted(edges: seq<Edge>) {
    forall i, j :: 0 <= i < j < |edges| ==> EdgeBefore(edges[i], edges[j]) && edges[i] != edges[j]
  }

  lemma RepeatCounts(edges: seq<Edge>, i: nat, j: nat)
    requires i < j < |edges|
    ensures edges[i] == edges[j] ==> multiset(edges)[edges[i]] >= 2
  {
    assert edges == edges[..j] + [edges[j]] + edges[j + 1..];
    assert edges[i] in edges[..j];
  }

  lemma SetListingStrict(edges: seq<Edge>, s: set<Edge>)
    requires SortedBy(PairLe, edges) && multiset(edges) == multiset(s)
    ensures StrictlySorted(edges)
    ensures forall e :: e in edges <==> e in s
  {
    forall i, j | 0 <= i < j < |edges| ensures EdgeBefore(edges[i], edges[j]) && edges[i] != edges[j] {
      RepeatCounts(edges, i, j);
      PairIsBefore(edges[i], edges[j]);
    }
    assert forall e :: e in multiset(edges) <==> e in s;
  }

  method SortedNames(names: set<string>) returns (r: seq<string>)
    ensures SortedBy(LexLe, r) && multiset(r) == multiset(names)
    ensures forall v :: v in r <==> v in names
  {
    LexOrder();
    r := ListSet(names);
    SortSorts(LexLe, r);
    r := Sort(LexLe, r);
    assert forall v :: v in multiset(r) <==> v in names;
  }

  method CollectEdges(graph: ModuleGraph, components: seq<set<string>>) returns (edges: seq<Edge>)
    requires Tarjan.Disjoint(components)
    ensures SortedBy(PairLe, edges)
    ensures multiset(edges) == multiset(Collected(graph, components, |components|))
  {
    edges := [];
    for i := 0 to |components|
      invariant multiset(edges) == multiset(Collected(graph, components, i))
    {
      if |components[i]| > 1 {
        var inner := ListSet(Inner(graph, components[i]));
        edges := edges + inner;
      }
    }
    PairSorts(edges);
    edges := Sort(PairLe, edges);
  }

  lemma PairSorts(edges: seq<Edge>)
    ensures SortedBy(PairLe, Sort(PairLe, edges)) && multiset(Sort(PairLe, edges)) == multiset(edges)
  {
    PairOrder();
    SortSorts(PairLe, edges);
  }

  /** Lists each reported edge once, in order. */
  method FindCycles(graph: ModuleGraph) returns (edges: seq<Edge>)
    ensures StrictlySorted(edges)
    ensures forall s, t :: (s, t) in edges <==> Reported(graph, s, t)
  {
    var order := SortedNames(graph.Keys);
    var components := Tarjan.StronglyConnectedComponents(graph, order);
    edges := CollectEdges(graph, components);
    SetListingStrict(edges, Collected(graph, components, |components|));
    forall s, t ensures (s, t) in edges <==> Reported(graph, s, t) {
      CollectedIsReported(graph, components, (s, t));
    }
  }

  // ----- _find_path

  datatype Frame = Frame(node: string, targets: seq<string>, path: seq<string>)

  /** Every frame carries a simple walk from `start` to its node, over visited nodes. */
  ghost predicate Grounded(g: ModuleGraph, start: string, stack: seq<Frame>, visited: set<string>) {
    forall i :: 0 <= i < |stack| ==>
      && Walk(g, stack[i].path, start, stack[i].node)
      && Distinct(stack[i].path)
      && (forall x :: x in stack[i].targets ==> x in Succ(g, stack[i].node))
      && forall x :: x in stack[i].path ==> x in visited
  }

  /** An unvisited successor of a visited node is still ahead of some frame's iterator. */
  ghost predicate Pending(g: ModuleGraph, stack: seq<Frame>, visited: set<string>) {
    forall v, w :: v in visited && w in Succ(g, v) && w !in visited ==>
      exists i :: 0 <= i < |stack| && stack[i].node == v && w in stack[i].targets
  }

  ghost predicate EndOnTop(stack: seq<Frame>, visited: set<string>, end: string) {
    end in visited ==> stack != [] && stack[|stack| - 1].node == end
  }

  /** Moves an iterator to its first unvisited target. */
  method NextUnvisited(targets: seq<string>, visited: set<string>) returns (rest: seq<string>)
    ensures rest != [] ==> rest[0] !in visited
    ensures SortedBy(LexLe, targets) ==> SortedBy(LexLe, rest)
    ensures forall w :: w in rest ==> w in targets
    ensures forall w :: w in targets && w !in visited ==> w in rest
  {
    rest := targets;
    while rest != [] && rest[0] in visited
      invariant SortedBy(LexLe, targets) ==> SortedBy(LexLe, rest)
      invariant forall w :: w in rest ==> w in targets
      invariant forall w :: w in targets && w !in visited ==> w in rest
    {
      rest := rest[1..];
    }
  }

  lemma AdvancePending(g: ModuleGraph, stack: seq<Frame>, visited: set<string>, rest: seq<string>)
    requires stack != [] && Pending(g, stack, visited)
    requires forall w :: w in stack[|stack| - 1].targets && w !in visited ==> w in rest
    ensures Pending(g, stack[|stack| - 1 := stack[|stack| - 1].(targets := rest)], visited)
  {
    var top := |stack| - 1;
    var stack' := stack[top := stack[top].(targets := rest)];
    forall v, w | v in visited && w in Succ(g, v) && w !in visited
      ensures exists i :: 0 <= i < |stack'| && stack'[i].node == v && w in stack'[i].targets
    {
      var i :| 0 <= i < |stack| && stack[i].node == v && w in stack[i].targets;
      assert stack'[i].node == v && w in stack'[i].targets;
    }
  }

  lemma PushPending(g: ModuleGraph, stack: seq<Frame>, visited: set<string>, frame: Frame)
    requires Pending(g, stack, visited)
    requires forall w :: w in Succ(g, frame.node) ==> w in frame.targets
    ensures Pending(g, stack + [frame], visited + {frame.node})
  {
    var stack', visited' := stack + [frame], visited + {frame.node};
    forall v, w | v in visited' && w in Succ(g, v) && w !in visited'
      ensures exists i :: 0 <= i < |stack'| && stack'[i].node == v && w in stack'[i].targets
    {
      if v == frame.node {
        assert stack'[|stack|].node == v;
      } else {
        var i :| 0 <= i < |stack| && stack[i].node == v && w in stack[i].targets;
        assert stack'[i] == stack[i];
      }
    }
  }

  ghost predicate Searching(
    g: ModuleGraph, start: string, end: string, stack: seq<Frame>, visited: set<string>)
  {
    && start in visited && visited <= Nodes(g) + {start}
    && Grounded(g, start, stack, visited)
    && Pending(g, stack, visited)
    && EndOnTop(stack, visited, end)
  }

  lemma SearchStart(g: ModuleGraph, start: string, end: string, targets: seq<string>)
    requires forall w :: w in Succ(g, start) <==> w in targets
    ensures Searching(g, start, end, [Frame(start, targets, [start])], {start})
  {
    var frame := Frame(start, targets, [start]);
    PushPending(g, [], {}, frame);
    assert [] + [frame] == [frame] && {} + {start} == {start};
  }

  lemma SearchPush(
    g: ModuleGraph, start: string, end: string, stack: seq<Frame>, visited: set<string>, rest: seq<string>,
    frame: Frame)
    requires stack != [] && Searching(g, start, end, stack, visited) && stack[|stack| - 1].node != end
    requires forall w :: w in rest ==> w in stack[|stack| - 1].targets
    requires forall w :: w in stack[|stack| - 1].targets && w !in visited ==> w in rest
    requires frame.node in rest && frame.node !in visited
    requires frame.path == stack[|stack| - 1].path + [frame.node]
    requires forall w :: w in Succ(g, frame.node) <==> w in frame.targets
    ensures Searching(
              g, start, end, stack[|stack| - 1 := stack[|stack| - 1].(targets := rest)] + [frame],
              visited + {frame.node})
    ensures frame.node in Nodes(g)
  {
    var stack' := stack[|stack| - 1 := stack[|stack| - 1].(targets := rest)];
    AdvancePending(g, stack, visited, rest);
    PushPending(g, stack', visited, frame);
    assert Grounded(g, start, stack', visited);
  }

  lemma SearchPop(g: ModuleGraph, start: string, end: string, stack: seq<Frame>, visited: set<string>)
    requires stack != [] && Searching(g, start, end, stack, visited) && stack[|stack| - 1].node != end
    requires forall w :: w in stack[|stack| - 1].targets ==> w in visited
    ensures Searching(g, start, end, stack[..|stack| - 1], visited)
  {
  }

  lemma SearchFailed(g: ModuleGraph, start: string, end: string, visited: set<string>)
    requires Searching(g, start, end, [], visited)
    ensures !Reach(g, start, end)
  {
    forall p ensures !Walk(g, p, start, end) {
      if Walk(g, p, start, end) {
        ClosedTrapsWalk(g, visited, p, start, end);
      }
    }
  }

  // ----- Which path

  /** Some walk from `u` to `end` keeps off these nodes. */
  ghost predicate Leads(g: ModuleGraph, u: string, end: string, off: seq<string>) {
    exists p :: Walk(g, p, u, end) && forall x :: x in p ==> x !in off
  }

  /** At each node the walk goes on to the first successor, in dictionary order, that leads to
      the end without coming back. */
  ghost predicate DictionaryFirst(g: ModuleGraph, path: seq<string>, end: string) {
    forall i, y :: 0 <= i < |path| - 1 && y in Succ(g, path[i]) && Before(y, path[i + 1]) ==>
      !Leads(g, y, end, path[..i + 1])
  }

  /** A simple walk from here on keeps off what came before. */
  lemma RestLeads(g: ModuleGraph, p: seq<string>, start: string, end: string, k: nat)
    requires Walk(g, p, start, end) && Distinct(p) && k < |p|
    ensures Leads(g, p[k], end, p[..k])
  {
    var rest := p[k..];
    forall i | 0 < i < |rest| ensures rest[i] in Succ(g, rest[i - 1]) {
      assert p[k + i] in Succ(g, p[k + i - 1]);
    }
    assert Walk(g, rest, p[k], end);
    forall x | x in rest ensures x !in p[..k] {
      var i :| 0 <= i < |rest| && rest[i] == x;
      assert p[k + i] == x;
    }
  }

  lemma BeforeTotal(a: string, b: string)
    ensures a == b || Before(a, b) || Before(b, a)
  {
    LexTotal(a, b);
    LexIsBefore(a, b);
    LexIsBefore(b, a);
  }

  lemma {:induction false} SamePrefix(
    g: ModuleGraph, p: seq<string>, q: seq<string>, start: string, end: string, k: nat)
    requires Walk(g, p, start, end) && Distinct(p) && DictionaryFirst(g, p, end)
    requires Walk(g, q, start, end) && Distinct(q) && DictionaryFirst(g, q, end)
    requires k < |p| && k < |q|
    ensures p[..k + 1] == q[..k + 1]
  {
    if k > 0 {
      SamePrefix(g, p, q, start, end, k - 1);
      assert p[k - 1] == p[..k][k - 1] == q[..k][k - 1] == q[k - 1];
      BeforeTotal(p[k], q[k]);
      RestLeads(g, p, start, end, k);
      RestLeads(g, q, start, end, k);
      assert p[(k - 1) + 1] in Succ(g, p[k - 1]) && q[(k - 1) + 1] in Succ(g, q[k - 1]);
      assert p[..k + 1] == p[..k] + [p[k]] && q[..k + 1] == q[..k] + [q[k]];
    }
  }

  /** That determines the walk. */
  lemma DictionaryFirstUnique(g: ModuleGraph, p: seq<string>, q: seq<string>, start: string, end: string)
    requires Walk(g, p, start, end) && Distinct(p) && DictionaryFirst(g, p, end)
    requires Walk(g, q, start, end) && Distinct(q) && DictionaryFirst(g, q, end)
    ensures p == q
  {
    var k := if |p| <= |q| then |p| - 1 else |q| - 1;
    SamePrefix(g, p, q, start, end, k);
    assert p[k] == p[..k + 1][k] == q[..k + 1][k] == q[k] == end;
    assert p[|p| - 1] == end == q[|q| - 1];
    assert p == p[..|p|] && q == q[..|q|];
  }

  /** Successors behind the iterator are on the path or done, and what is done leads nowhere
      but back to the path. */
  ghost predicate Tried(g: ModuleGraph, end: string, frame: Frame, done: set<string>) {
    && SortedBy(LexLe, frame.targets) && end !in done
    && (forall x, y :: x in done && y in Succ(g, x) ==> y in done || y in frame.path)
    && (forall y :: y in Succ(g, frame.node) && y !in frame.targets ==> y in done || y in frame.path)
  }

  /** Frame `i + 1` is where the iterator of frame `i` points. */
  ghost predicate Linked(stack: seq<Frame>, done: seq<set<string>>, i: nat) {
    && i + 1 < |stack| == |done| && done[i] <= done[i + 1]
    && stack[i].targets != [] && stack[i].targets[0] == stack[i + 1].node
    && stack[i + 1].path == stack[i].path + [stack[i + 1].node]
  }

  ghost predicate Ordered(
    g: ModuleGraph, end: string, stack: seq<Frame>, done: seq<set<string>>, visited: set<string>)
  {
    && |done| == |stack|
    && (forall i :: 0 <= i < |stack| ==> Tried(g, end, stack[i], done[i]))
    && (forall i: nat :: i < |stack| - 1 ==> Linked(stack, done, i))
    && (stack != [] ==>
          && stack[0].path == [stack[0].node]
          && forall x :: x in visited ==> x in done[|stack| - 1] || x in stack[|stack| - 1].path)
  }

  lemma OrderedPush(
    g: ModuleGraph, end: string, stack: seq<Frame>, done: seq<set<string>>, visited: set<string>,
    rest: seq<string>, frame: Frame)
    requires stack != [] && Ordered(g, end, stack, done, visited)
    requires SortedBy(LexLe, rest) && rest != [] && rest[0] == frame.node
    requires forall w :: w in stack[|stack| - 1].targets && w !in visited ==> w in rest
    requires SortedBy(LexLe, frame.targets) && forall w :: w in Succ(g, frame.node) ==> w in frame.targets
    requires frame.path == stack[|stack| - 1].path + [frame.node]
    ensures Ordered(g, end, stack[|stack| - 1 := stack[|stack| - 1].(targets := rest)] + [frame],
                    done + [done[|stack| - 1]], visited + {frame.node})
  {
    var top := |stack| - 1;
    var moved := stack[top].(targets := rest);
    var stack', done' := stack[top := moved] + [frame], done + [done[top]];
    assert Tried(g, end, moved, done[top]);
    assert Tried(g, end, frame, done[top]);
    forall i: nat | i < |stack'| - 1 ensures Linked(stack', done', i) {
      if i < top {
        assert Linked(stack, done, i);
      }
    }
  }

  lemma FinishedTried(
    g: ModuleGraph, end: string, below: Frame, top: Frame, doneBelow: set<string>, done: set<string>,
    visited: set<string>)
    requires Tried(g, end, below, doneBelow) && Tried(g, end, top, done) && doneBelow <= done && top.node != end
    requires top.path == below.path + [top.node]
    requires forall w :: w in top.targets ==> w in visited
    requires forall x :: x in visited ==> x in done || x in top.path
    ensures Tried(g, end, below, done + {top.node})
  {
    var finished := done + {top.node};
    forall x, y | x in finished && y in Succ(g, x) ensures y in finished || y in below.path {
      if x == top.node {
        assert y in top.targets ==> y in visited;
      }
      assert y in top.path <==> y in below.path || y == top.node;
    }
  }

  lemma OrderedPop(g: ModuleGraph, end: string, stack: seq<Frame>, done: seq<set<string>>, visited: set<string>)
    returns (done': seq<set<string>>)
    requires stack != [] && Ordered(g, end, stack, done, visited) && stack[|stack| - 1].node != end
    requires forall w :: w in stack[|stack| - 1].targets ==> w in visited
    ensures Ordered(g, end, stack[..|stack| - 1], done', visited)
  {
    var top := |stack| - 1;
    if top == 0 {
      done' := [];
    } else {
      var finished := done[top] + {stack[top].node};
      done' := done[..top][top - 1 := finished];
      assert Linked(stack, done, top - 1);
      FinishedTried(g, end, stack[top - 1], stack[top], done[top - 1], done[top], visited);
      forall i: nat | i < top - 1 ensures Linked(stack[..top], done', i) {
        assert Linked(stack, done, i);
      }
    }
  }

  lemma {:induction false} PathPrefix(
    g: ModuleGraph, end: string, stack: seq<Frame>, done: seq<set<string>>, visited: set<string>, i: nat, j: nat)
    requires i <= j < |stack| && Ordered(g, end, stack, done, visited)
    ensures |stack[j].path| == j + 1 && stack[j].path[..i + 1] == stack[i].path && stack[j].path[i] == stack[i].node
  {
    if i < j {
      PathPrefix(g, end, stack, done, visited, i, j - 1);
      assert Linked(stack, done, j - 1);
    } else if j > 0 {
      PathPrefix(g, end, stack, done, visited, j - 1, j - 1);
      assert Linked(stack, done, j - 1);
    }
  }

  /** What lies before the first of a sorted list is not in it. */
  lemma NotAhead(targets: seq<string>, y: string)
    requires SortedBy(LexLe, targets) && targets != [] && Before(y, targets[0])
    ensures y !in targets
  {
    LexIsBefore(y, targets[0]);
    LexTotal(y, targets[0]);
    forall k | 0 <= k < |targets| ensures targets[k] != y {
      assert k > 0 ==> LexLe(targets[0], targets[k]);
    }
  }

  /** A walk that keeps off the path does not get out of what is done. */
  lemma {:induction false} DoneTrapsWalk(
    g: ModuleGraph, end: string, frame: Frame, done: set<string>, p: seq<string>, y: string)
    requires Tried(g, end, frame, done) && y in done
    requires Walk(g, p, y, end) && forall x :: x in p ==> x !in frame.path
    ensures false
    decreases |p|
  {
    if |p| > 1 {
      assert p[1] in Succ(g, p[0]) && p[1] in p;
      var q := p[1..];
      forall i | 0 < i < |q| ensures q[i] in Succ(g, q[i - 1]) {
        assert p[i + 1] in Succ(g, p[i]);
      }
      DoneTrapsWalk(g, end, frame, done, q, p[1]);
    }
  }

  lemma {:induction false} OrderedFound(
    g: ModuleGraph, end: string, stack: seq<Frame>, done: seq<set<string>>, visited: set<string>)
    requires stack != [] && Ordered(g, end, stack, done, visited)
    ensures DictionaryFirst(g, stack[|stack| - 1].path, end)
  {
    var path := stack[|stack| - 1].path;
    PathPrefix(g, end, stack, done, visited, 0, |stack| - 1);
    forall i, y | 0 <= i < |path| - 1 && y in Succ(g, path[i]) && Before(y, path[i + 1])
      ensures !Leads(g, y, end, path[..i + 1])
    {
      PathPrefix(g, end, stack, done, visited, i, |stack| - 1);
      PathPrefix(g, end, stack, done, visited, i + 1, |stack| - 1);
      assert Linked(stack, done, i);
      PassedBy(g, end, stack[i], done[i], y);
    }
  }

  lemma {:induction false} PassedBy(g: ModuleGraph, end: string, frame: Frame, done: set<string>, y: string)
    requires Tried(g, end, frame, done) && y in Succ(g, frame.node)
    requires frame.targets != [] && Before(y, frame.targets[0])
    ensures !Leads(g, y, end, frame.path)
  {
    NotAhead(frame.targets, y);
    if p :| Walk(g, p, y, end) && forall x :: x in p ==> x !in frame.path {
      assert p[0] == y && y in p;
      DoneTrapsWalk(g, end, frame, done, p, y);
    }
  }

  /** Depth-first search for a simple walk; empty exactly when there is none. */
  method FindPath(start: string, end: string, graph: ModuleGraph) returns (path: seq<string>)
    ensures path != [] <==> Reach(graph, start, end)
    ensures path != [] ==> Walk(graph, path, start, end) && Distinct(path)
    ensures DictionaryFirst(graph, path, end)
  {
    var first := SortedNames(Succ(graph, start));
    SearchStart(graph, start, end, first);
    var stack := [Frame(start, first, [start])];
    var visited := {start};
    ghost var done: seq<set<string>> := [{}];
    assert Tried(graph, end, stack[0], {});
    while stack != []
      invariant Searching(graph, start, end, stack, visited)
      invariant Ordered(graph, end, stack, done, visited)
      decreases Nodes(graph) + {start} - visited, |stack|
    {
      var top := stack[|stack| - 1];
      if top.node == end {
        OrderedFound(graph, end, stack, done, visited);
        return top.path;
      }
      var rest := NextUnvisited(top.targets, visited);
      if rest != [] {
        var targets := SortedNames(Succ(graph, rest[0]));
        var frame := Frame(rest[0], targets, top.path + [rest[0]]);
        SearchPush(graph, start, end, stack, visited, rest, frame);
        OrderedPush(graph, end, stack, done, visited, rest, frame);
        done := done + [done[|stack| - 1]];
        stack := stack[|stack| - 1 := top.(targets := rest)] + [frame];
        visited := visited + {rest[0]};
      } else {
        SearchPop(graph, start, end, stack, visited);
        done := OrderedPop(graph, end, stack, done, visited);
        stack := stack[..|stack| - 1];
      }
    }
    SearchFailed(graph, start, end, visited);
    path := [];
  }

  /** For a reported edge: a closed walk that begins with the edge, ends at its source and
      passes every other node at most once. */
  method FindCyclePath(source: string, target: string, graph: ModuleGraph) returns (cycle: seq<string>)
    ensures cycle != [] <==> Reach(graph, target, source)
    ensures OnCycle(graph, source, target) ==>
              Walk(graph, cycle, source, source) && |cycle| > 1 && cycle[1] == target && Distinct(cycle[1..])
    ensures cycle != [] ==> DictionaryFirst(graph, cycle[1..], source)
  {
    var path := FindPath(target, source, graph);
    if path == [] {
      return [];
    }
    cycle := [source] + path;
    assert cycle[1..] == path;
  }

  // ----- The allowlist

  /** An element of the YAML `edges` list: a mapping with optional keys, or something else. */
  datatype Entry = Other | Mapping(source: Option<string>, target: Option<string>)

  /** A key that is present and not empty. */
  predicate Usable(o: Option<string>) {
    o.Some? && o.value != ""
  }

  function LoadAllowlist(entries: seq<Entry>): set<Edge> {
    set e | e in entries && e.Mapping? && Usable(e.source) && Usable(e.target) :: (e.source.value, e.target.value)
  }

  function WriteAllowlist(edges: seq<Edge>): seq<Entry> {
    var ordered := Sort(PairLe, edges);
    seq(|ordered|, i requires 0 <= i < |ordered| => Mapping(Some(ordered[i].0), Some(ordered[i].1)))
  }

  /** The list has an entry for this edge, with both names given. */
  ghost predicate Allowed(entries: seq<Entry>, s: string, t: string) {
    s != "" && t != "" && exists i :: 0 <= i < |entries| && entries[i] == Mapping(Some(s), Some(t))
  }

  /** An entry allows the edge from its source to its target, and nothing else does. */
  lemma LoadedIffAllowed(entries: seq<Entry>, s: string, t: string)
    ensures (s, t) in LoadAllowlist(entries) <==> Allowed(entries, s, t)
  {
    if Allowed(entries, s, t) {
      assert Mapping(Some(s), Some(t)) in entries;
    }
  }

  /** The list written has one entry for each edge, in the order of the edges. */
  lemma WrittenInOrder(edges: seq<Edge>)
    ensures var entries := WriteAllowlist(edges);
            && |entries| == |edges|
            && (forall i :: 0 <= i < |entries| ==>
                  entries[i].Mapping? && entries[i].source.Some? && entries[i].target.Some?)
            && multiset(EdgesOf(entries)) == multiset(edges)
            && forall i, j :: 0 <= i < j < |entries| ==>
                 EdgesOf(entries)[i] == EdgesOf(entries)[j] || EdgeBefore(EdgesOf(entries)[i], EdgesOf(entries)[j])
  {
    PairSorts(edges);
    var entries := WriteAllowlist(edges);
    assert EdgesOf(entries) == Sort(PairLe, edges);
    assert |multiset(edges)| == |multiset(Sort(PairLe, edges))|;
    var listed := EdgesOf(entries);
    forall i, j | 0 <= i < j < |listed| ensures listed[i] == listed[j] || EdgeBefore(listed[i], listed[j]) {
      if listed[i] != listed[j] {
        PairIsBefore(listed[i], listed[j]);
      }
    }
  }

  /** Entry by entry, source and target as one edge. */
  ghost function EdgesOf(entries: seq<Entry>): seq<Edge> {
    seq(|entries|, i requires 0 <= i < |entries| =>
      match entries[i]
      case Mapping(Some(s), Some(t)) => (s, t)
      case _ => ("", ""))
  }

  predicate Named(e: Edge) {
    e.0 != "" && e.1 != ""
  }

  /** Reading back what was written recovers the edges, up to empty module names. */
  lemma AllowlistRoundTrip(edges: seq<Edge>)
    ensures LoadAllowlist(WriteAllowlist(edges)) == set e | e in edges && Named(e)
  {
    PairSorts(edges);
    var ordered, entries := Sort(PairLe, edges), WriteAllowlist(edges);
    assert forall e :: e in edges <==> e in multiset(ordered);
    forall e: Edge | e in edges && Named(e) ensures e in LoadAllowlist(entries) {
      var i :| 0 <= i < |ordered| && ordered[i] == e;
      assert entries[i] == Mapping(Some(e.0), Some(e.1));
    }
    forall e | e in LoadAllowlist(entries) ensures e in edges && Named(e) {
      var entry :| entry in entries && entry.Mapping? && Usable(entry.source) && Usable(entry.target)
        && e == (entry.source.value, entry.target.value);
      var i :| 0 <= i < |entries| && entries[i] == entry;
      assert ordered[i] == e;
    }
  }

  /** The check: exit code 0 exactly when every reported edge is allowed; otherwise the
      reported new edges are exactly the others, and the cycle shown runs through the first. */
  method Check(graph: ModuleGraph, entries: seq<Entry>) returns (code: int, newEdges: seq<Edge>, cycle: seq<string>)
    ensures StrictlySorted(newEdges)
    ensures forall s, t :: (s, t) in newEdges <==> Reported(graph, s, t) && !Allowed(entries, s, t)
    ensures code == if newEdges == [] then 0 else 1
    ensures newEdges != [] ==>
              && Walk(graph, cycle, newEdges[0].0, newEdges[0].0) && |cycle| > 1
              && cycle[1] == newEdges[0].1 && Distinct(cycle[1..])
              && DictionaryFirst(graph, cycle[1..], newEdges[0].0)
  {
    var cyclic := FindCycles(graph);
    var allowlist := LoadAllowlist(entries);
    newEdges := ListSet((set e | e in cyclic) - allowlist);
    PairSorts(newEdges);
    newEdges := Sort(PairLe, newEdges);
    SetListingStrict(newEdges, (set e | e in cyclic) - allowlist);
    forall s, t ensures (s, t) in allowlist <==> Allowed(entries, s, t) {
      LoadedIffAllowed(entries, s, t);
    }
    cycle := [];
    if newEdges == [] {
      return 0, newEdges, cycle;
    }
    assert newEdges[0] in newEdges;
    cycle := FindCyclePath(newEdges[0].0, newEdges[0].1, graph);
    code := 1;
  }

  /** Updating the allowlist and checking the same graph passes exactly when no reported
      edge touches a module with an empty name. */
  method UpdateThenCheck(graph: ModuleGraph) returns (code: int)
    ensures code == 0 <==> forall s, t :: Reported(graph, s, t) ==> Named((s, t))
  {
    var cyclic := FindCycles(graph);
    var entries := WriteAllowlist(cyclic);
    AllowlistRoundTrip(cyclic);
    forall s, t ensures (s, t) in LoadAllowlist(entries) <==> Allowed(entries, s, t) {
      LoadedIffAllowed(entries, s, t);
    }
    var newEdges, cycle;
    code, newEdges, cycle := Check(graph, entries);
    assert newEdges != [] ==> newEdges[0] in newEdges;
  }

  /** A pass with an empty allowlist and no self-imports: the components are single modules
      and their order is a topological numbering of the whole graph. */
  lemma CleanCheckMeansAcyclic(g: ModuleGraph, components: seq<set<string>>, i: nat, u: string, v: string)
    requires NoSelfLoops(g) && Tarjan.Decomposition(g, components)
    requires forall s, t :: !Reported(g, s, t)
    requires i < |components| && u in components[i]
    ensures components[i] == {u}
    ensures v in Succ(g, u) ==> Tarjan.Within(components, i, v) && !Reach(g, v, u)
  {
    forall w | w in components[i] ensures w == u {
      Tarjan.SharedIffMutual(g, components, i, u, w);
      if w != u {
        var x := LeavingEdge(g, u, w);
        ReachTrans(g, x, w, u);
        assert Reported(g, u, x);
      }
    }
    if v in Succ(g, u) {
      ReportedIffOnCycle(g, u, v);
      var j := Tarjan.EdgesDescend(g, components, i, u, v);
    }
  }

  /** A numbering in which every import goes down. */
  ghost predicate Topological(g: ModuleGraph, rank: map<string, nat>) {
    forall u, v :: u in g && v in g[u] ==> u in rank && v in rank && rank[v] < rank[u]
  }

  lemma {:induction false} WalkDescends(g: ModuleGraph, rank: map<string, nat>, p: seq<string>, u: string, v: string)
    requires Topological(g, rank) && Walk(g, p, u, v) && u in rank
    ensures v in rank && rank[v] <= rank[u]
    decreases |p|
  {
    if |p| > 1 {
      var q := p[..|p| - 1];
      forall i | 0 < i < |q| ensures q[i] in Succ(g, q[i - 1]) {
        assert p[i] in Succ(g, p[i - 1]);
      }
      WalkDescends(g, rank, q, u, q[|q| - 1]);
      assert v in Succ(g, p[|p| - 2]);
    }
  }

  lemma NumberedIsAcyclic(g: ModuleGraph, rank: map<string, nat>, s: string, t: string)
    requires Topological(g, rank)
    ensures !OnCycle(g, s, t)
  {
    if t in Succ(g, s) && Reach(g, t, s) {
      var p :| Walk(g, p, t, s);
      WalkDescends(g, rank, p, t, s);
    }
  }

  ghost function Reachable(g: ModuleGraph, u: string): set<string> {
    set w | w in Nodes(g) && Reach(g, u, w)
  }

  /** Without a cycle, a module imports only modules that reach strictly less. */
  lemma ImportsReachLess(g: ModuleGraph, u: string, v: string)
    requires u in g && v in g[u] && !OnCycle(g, u, v)
    ensures |Reachable(g, v)| < |Reachable(g, u)|
  {
    ReachEdge(g, u, v);
    forall w | w in Reachable(g, v) ensures w in Reachable(g, u) {
      ReachTrans(g, u, v, w);
    }
    ReachSelf(g, u);
    assert u in Reachable(g, u) && u !in Reachable(g, v);
    SmallerSet(Reachable(g, v), Reachable(g, u), u);
  }

  lemma SmallerSet(a: set<string>, b: set<string>, x: string)
    requires a <= b && x in b && x !in a
    ensures |a| < |b|
  {
    assert a + (b - a) == b && x in b - a;
  }

  lemma AcyclicIsNumbered(g: ModuleGraph) returns (rank: map<string, nat>)
    requires forall s, t :: !OnCycle(g, s, t)
    ensures Topological(g, rank)
  {
    rank := map u | u in Nodes(g) :: |Reachable(g, u)|;
    forall u, v | u in g && v in g[u] ensures u in rank && v in rank && rank[v] < rank[u] {
      ImportsReachLess(g, u, v);
    }
  }

  /** A graph has a topological numbering if and only if nothing is reported of it and no
      module imports itself. */
  lemma NumberedIffClean(g: ModuleGraph)
    ensures (exists rank :: Topological(g, rank)) <==> NoSelfLoops(g) && forall s, t :: !Reported(g, s, t)
  {
    if rank :| Topological(g, rank) {
      forall s, t ensures !Reported(g, s, t) {
        NumberedIsAcyclic(g, rank, s, t);
      }
    }
    if NoSelfLoops(g) && forall s, t :: !Reported(g, s, t) {
      forall s, t ensures !OnCycle(g, s, t) {
        ReportedIffOnCycle(g, s, t);
      }
      var rank := AcyclicIsNumbered(g);
    }
  }

  /** A check against an empty allowlist: with no self-imports it passes if and only if the
      imports can be numbered so that they all go down. */
  method CheckWithoutAllowlist(graph: ModuleGraph) returns (code: int)
    ensures code == 0 && NoSelfLoops(graph) <==> exists rank :: Topological(graph, rank)
    ensures code == 0 && NoSelfLoops(graph) ==>
              forall components :: Tarjan.Decomposition(graph, components) ==> SinglesInOrder(graph, components)
  {
    var newEdges, cycle;
    code, newEdges, cycle := Check(graph, []);
    assert newEdges != [] ==> newEdges[0] in newEdges;
    assert code == 0 <==> forall s, t :: !Reported(graph, s, t);
    NumberedIffClean(graph);
    if code == 0 && NoSelfLoops(graph) {
      forall components | Tarjan.Decomposition(graph, components) ensures SinglesInOrder(graph, components) {
        CleanComponents(graph, components);
      }
    }
  }

  /** Every component is one module, and imports lead to earlier components. */
  ghost predicate SinglesInOrder(g: ModuleGraph, components: seq<set<string>>) {
    forall i, u :: 0 <= i < |components| && u in components[i] ==>
      components[i] == {u} && forall v :: v in Succ(g, u) ==> Tarjan.Within(components, i, v)
  }

  lemma CleanComponents(g: ModuleGraph, components: seq<set<string>>)
    requires NoSelfLoops(g) && Tarjan.Decomposition(g, components) && forall s, t :: !Reported(g, s, t)
    ensures SinglesInOrder(g, components)
  {
    forall i, u | 0 <= i < |components| && u in components[i]
      ensures components[i] == {u} && forall v :: v in Succ(g, u) ==> Tarjan.Within(components, i, v)
    {
      CleanCheckMeansAcyclic(g, components, i, u, u);
      forall v | v in Succ(g, u) ensures Tarjan.Within(components, i, v) {
        CleanCheckMeansAcyclic(g, components, i, u, v);
      }
    }
  }
}
