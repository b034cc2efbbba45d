/** Tarjan's strongly connected components, as `_strongly_connected_components` runs it:
    one recursive visit per unnumbered node over shared mutable bookkeeping. */
module Tarjan {
  import opened Digraph

  /** The closure's variables, as a value the lemmas can speak about. */
  datatype State<!N> = State(
    index: int,
    stack: seq<N>,
    indices: map<N, int>,
    lowlinks: map<N, int>,
    onStack: set<N>,
    components: seq<set<N>>)

  ghost function Elems<N>(s: seq<N>): set<N> {
    set v | v in s
  }

  // ----- Specification of the result

  /** `v` lies in one of the first `n` components. */
  ghost predicate Within<N>(components: seq<set<N>>, n: nat, v: N) {
    exists j :: 0 <= j < n && j < |components| && v in components[j]
  }

  ghost predicate Disjoint<N>(components: seq<set<N>>) {
    && (forall i :: 0 <= i < |components| ==> components[i] != {})
    && forall i, j :: 0 <= i < j < |components| ==> components[i] !! components[j]
  }

  /** Every edge out of a component ends in it or in one emitted before it. */
  ghost predicate ReverseTopological<N>(g: Graph<N>, components: seq<set<N>>) {
    forall i, v, w ::
      0 <= i < |components| && v in components[i] && w in Succ(g, v) ==> Within(components, i + 1, w)
  }

  ghost predicate Strong<N(!new)>(g: Graph<N>, components: seq<set<N>>) {
    forall i, u, v :: 0 <= i < |components| && u in components[i] && v in components[i] ==> Reach(g, u, v)
  }

  /** The components partition all keys and all targets, each is strongly connected, and
      they come in reverse topological order. */
  ghost predicate Decomposition<N(!new)>(g: Graph<N>, components: seq<set<N>>) {
    && Disjoint(components)
    && (forall v :: v in Nodes(g) <==> Within(components, |components|, v))
    && ReverseTopological(g, components)
    && Strong(g, components)
  }

  // ----- What a decomposition determines

  /** Whatever a member of component `i` reaches lies in component `i` or an earlier one. */
  lemma ReachStaysBelow<N(!new)>(g: Graph<N>, components: seq<set<N>>, i: nat, u: N, v: N)
    requires ReverseTopological(g, components) && i < |components| && u in components[i] && Reach(g, u, v)
    ensures Within(components, i + 1, v)
  {
    var below := set j, x | 0 <= j <= i && x in components[j] :: x;
    forall x | x in below ensures Succ(g, x) <= below {
      var j :| 0 <= j <= i && x in components[j];
      forall w | w in Succ(g, x) ensures w in below {
        assert Within(components, j + 1, w);
      }
    }
    var p :| Walk(g, p, u, v);
    ClosedTrapsWalk(g, below, p, u, v);
  }

  /** Two nodes share a component exactly when each reaches the other. */
  lemma SharedIffMutual<N(!new)>(g: Graph<N>, components: seq<set<N>>, i: nat, u: N, v: N)
    requires Decomposition(g, components) && i < |components| && u in components[i]
    ensures v in components[i] <==> Mutual(g, u, v)
  {
    if Mutual(g, u, v) {
      ReachStaysBelow(g, components, i, u, v);
      var j :| 0 <= j < i + 1 && v in components[j];
      ReachStaysBelow(g, components, j, v, u);
    }
  }

  /** The position of each node's component numbers the nodes so that an edge never goes
      up, and stays level exactly when its target reaches back. */
  lemma EdgesDescend<N(!new)>(g: Graph<N>, components: seq<set<N>>, i: nat, u: N, v: N)
    returns (j: nat)
    requires Decomposition(g, components) && i < |components| && u in components[i] && v in Succ(g, u)
    ensures j <= i && v in components[j]
    ensures j == i <==> Reach(g, v, u)
  {
    j :| 0 <= j < i + 1 && v in components[j];
    ReachEdge(g, u, v);
    SharedIffMutual(g, components, i, u, v);
  }

  /** The order of visits can change the order of the components but not which sets they are. */
  lemma DecompositionUnique<N(!new)>(g: Graph<N>, c1: seq<set<N>>, c2: seq<set<N>>, component: set<N>)
    requires Decomposition(g, c1) && Decomposition(g, c2) && component in c1
    ensures component in c2
  {
    var i :| 0 <= i < |c1| && c1[i] == component;
    var u :| u in component;
    assert Within(c1, |c1|, u);
    var j :| 0 <= j < |c2| && u in c2[j];
    forall v ensures v in component <==> v in c2[j] {
      SharedIffMutual(g, c1, i, u, v);
      SharedIffMutual(g, c2, j, u, v);
    }
    assert component == c2[j];
  }

  // ----- The invariant of the recursion

  /** `on_stack` is the stack's contents; numbers below `index` have been given out. */
  ghost predicate Bookkeeping<N>(s: State<N>) {
    && s.onStack == Elems(s.stack)
    && s.lowlinks.Keys == s.indices.Keys
    && 0 <= s.index
    && forall v :: v in s.indices ==> 0 <= s.indices[v] < s.index
  }

  /** The stack is strictly increasing in index. */
  ghost predicate Increasing<N>(stack: seq<N>, indices: map<N, int>) {
    && (forall v :: v in stack ==> v in indices)
    && forall i, j :: 0 <= i < j < |stack| ==> indices[stack[i]] < indices[stack[j]]
  }

  /** A numbered node is either on the stack or popped into exactly one component. */
  ghost predicate Accounted<N>(stack: seq<N>, indices: map<N, int>, components: seq<set<N>>) {
    && Disjoint(components)
    && (forall v :: v in indices ==> v in stack || Within(components, |components|, v))
    && forall i, v :: 0 <= i < |components| && v in components[i] ==> v in indices && v !in stack
  }

  /** Only a node whose visit is still running has an edge to an unnumbered node. */
  ghost predicate Explored<N>(g: Graph<N>, indices: map<N, int>, active: set<N>) {
    forall v :: v in indices && v !in active ==> Succ(g, v) <= indices.Keys
  }

  ghost predicate Chained<N(!new)>(g: Graph<N>, stack: seq<N>) {
    forall i, j :: 0 <= i < j < |stack| ==> Reach(g, stack[i], stack[j])
  }

  /** `u` is a running node, not above `v`, that `v` reaches. */
  ghost predicate Anchor<N(!new)>(g: Graph<N>, indices: map<N, int>, active: set<N>, v: N, u: N) {
    u in active && u in indices && v in indices && indices[u] <= indices[v] && Reach(g, v, u)
  }

  ghost predicate HasAnchor<N(!new)>(g: Graph<N>, indices: map<N, int>, active: set<N>, v: N) {
    exists u :: Anchor(g, indices, active, v, u)
  }

  ghost predicate Anchored<N(!new)>(g: Graph<N>, stack: seq<N>, indices: map<N, int>, active: set<N>) {
    forall v {:trigger HasAnchor(g, indices, active, v)} :: v in stack ==> HasAnchor(g, indices, active, v)
  }

  ghost predicate Core<N(!new)>(
    g: Graph<N>, stack: seq<N>, indices: map<N, int>, components: seq<set<N>>, active: set<N>)
  {
    && indices.Keys <= Nodes(g)
    && active <= Elems(stack)
    && Increasing(stack, indices)
    && Accounted(stack, indices, components)
    && Explored(g, indices, active)
    && Chained(g, stack)
    && Anchored(g, stack, indices, active)
    && ReverseTopological(g, components)
    && Strong(g, components)
  }

  ghost predicate Inv<N(!new)>(g: Graph<N>, s: State<N>, active: set<N>) {
    Bookkeeping(s) && Core(g, s.stack, s.indices, s.components, active)
  }

  /** Numbers already given stay. */
  ghost predicate Kept<N>(m: map<N, int>, m': map<N, int>, domain: set<N>) {
    forall v :: v in domain && v in m ==> v in m' && m'[v] == m[v]
  }

  /** What a visit leaves alone: the caller's stack stays a prefix, numbers and low-links
      already given stay, and components are only appended. */
  ghost predicate Extends<N>(s0: State<N>, s: State<N>) {
    && s0.stack <= s.stack
    && s0.components <= s.components
    && Kept(s0.indices, s.indices, s0.indices.Keys)
    && Kept(s0.lowlinks, s.lowlinks, s0.indices.Keys)
  }

  /** `y`, in `region`, has number `low`, and `x` reaches it. */
  ghost predicate LowTarget<N(!new)>(
    g: Graph<N>, indices: map<N, int>, region: seq<N>, x: N, low: int, y: N)
  {
    y in region && y in indices && indices[y] == low && Reach(g, x, y)
  }

  ghost predicate LowReached<N(!new)>(g: Graph<N>, indices: map<N, int>, region: seq<N>, x: N, low: int) {
    exists y :: LowTarget(g, indices, region, x, low, y)
  }

  /** No edge from the stack at or above position |below| into `below` goes under `low`; the
      targets of `x` still in `todo` have not been looked at. */
  ghost predicate EdgesBounded<N>(
    g: Graph<N>, stack: seq<N>, indices: map<N, int>, below: seq<N>, x: N, low: int, todo: set<N>)
  {
    forall i, w ::
      |below| <= i < |stack| && w in below && w in Succ(g, stack[i]) && !(stack[i] == x && w in todo)
      ==> w in indices && low <= indices[w]
  }

  ghost predicate Seen<N>(g: Graph<N>, indices: map<N, int>, x: N, todo: set<N>) {
    forall w :: w in Succ(g, x) && w !in todo ==> w in indices
  }

  /** The part of a visit of `x`, entered in `s0`, that low-links play no role in. */
  ghost predicate Inside<N(!new)>(g: Graph<N>, s0: State<N>, s: State<N>, active: set<N>, x: N) {
    && Inv(g, s, active + {x})
    && Extends(s0, s)
    && s0.stack + [x] <= s.stack
    && x !in s0.indices && x in s.indices && s.indices[x] == s0.index
  }

  /** In the middle of `strongconnect(x)`, entered in `s0`, with `todo` left to look at. */
  ghost predicate Visiting<N(!new)>(g: Graph<N>, s0: State<N>, s: State<N>, active: set<N>, x: N, todo: set<N>) {
    && Inside(g, s0, s, active, x)
    && Seen(g, s.indices, x, todo)
    && s.lowlinks[x] <= s.indices[x]
    && LowReached(g, s.indices, s0.stack + [x], x, s.lowlinks[x])
    && EdgesBounded(g, s.stack, s.indices, s0.stack, x, s.lowlinks[x], todo)
  }

  /** After `strongconnect(x)`, entered in state `s0`. */
  ghost predicate Returned<N(!new)>(g: Graph<N>, s0: State<N>, s: State<N>, active: set<N>, x: N) {
    && Inv(g, s, active)
    && Extends(s0, s)
    && x !in s0.indices && x in s.indices && s.indices[x] == s0.index
    && s.lowlinks[x] <= s.indices[x]
    && (s.lowlinks[x] < s.indices[x] ==> LowReached(g, s.indices, s0.stack, x, s.lowlinks[x]))
    && EdgesBounded(g, s.stack, s.indices, s0.stack, x, s.lowlinks[x], {})
  }

  /** What the caller owes: `x` is new, and every running visit reaches it. */
  ghost predicate Enterable<N(!new)>(g: Graph<N>, s: State<N>, active: set<N>, x: N) {
    && Inv(g, s, active)
    && x in Nodes(g) && x !in s.indices
    && forall u :: u in active ==> Reach(g, u, x)
  }

  // ----- Entering a node

  function Entered<N(==)>(s: State<N>, x: N): State<N> {
    State(s.index + 1, s.stack + [x], s.indices[x := s.index], s.lowlinks[x := s.index], s.onStack + {x}, s.components)
  }

  lemma EnteredIncreasing<N>(s: State<N>, x: N)
    requires Bookkeeping(s) && Increasing(s.stack, s.indices) && x !in s.indices
    ensures Bookkeeping(Entered(s, x)) && Increasing(s.stack + [x], Entered(s, x).indices)
  {
  }

  lemma EnteredAccounted<N>(s: State<N>, x: N)
    requires Accounted(s.stack, s.indices, s.components) && x !in s.indices
    ensures Accounted(s.stack + [x], Entered(s, x).indices, s.components)
  {
  }

  lemma EnteredChained<N(!new)>(g: Graph<N>, s: State<N>, active: set<N>, x: N)
    requires Chained(g, s.stack) && Anchored(g, s.stack, s.indices, active)
    requires forall u :: u in active ==> Reach(g, u, x)
    ensures Chained(g, s.stack + [x])
  {
    var t := s.stack + [x];
    forall i, j | 0 <= i < j < |t| ensures Reach(g, t[i], t[j]) {
      if j == |s.stack| {
        assert s.stack[i] in s.stack && HasAnchor(g, s.indices, active, s.stack[i]);
        var u :| Anchor(g, s.indices, active, s.stack[i], u);
        ReachTrans(g, s.stack[i], u, x);
      }
    }
  }

  lemma EnteredAnchored<N(!new)>(g: Graph<N>, s: State<N>, active: set<N>, x: N)
    requires Anchored(g, s.stack, s.indices, active) && x !in s.indices
    ensures Anchored(g, s.stack + [x], Entered(s, x).indices, active + {x})
  {
    var t := Entered(s, x);
    forall v | v in t.stack ensures HasAnchor(g, t.indices, active + {x}, v) {
      if v == x {
        ReachSelf(g, x);
        assert Anchor(g, t.indices, active + {x}, x, x);
      } else {
        assert HasAnchor(g, s.indices, active, v);
        var u :| Anchor(g, s.indices, active, v, u);
        assert Anchor(g, t.indices, active + {x}, v, u);
      }
    }
  }

  lemma EnteredInside<N(!new)>(g: Graph<N>, s: State<N>, active: set<N>, x: N)
    requires Enterable(g, s, active, x)
    ensures Inside(g, s, Entered(s, x), active, x)
  {
    EnteredIncreasing(s, x);
    EnteredAccounted(s, x);
    EnteredChained(g, s, active, x);
    EnteredAnchored(g, s, active, x);
  }

  lemma EnteredBounded<N>(g: Graph<N>, s: State<N>, x: N, low: int)
    ensures EdgesBounded(g, s.stack + [x], Entered(s, x).indices, s.stack, x, low, Succ(g, x))
  {
  }

  lemma EnteredVisiting<N(!new)>(g: Graph<N>, s: State<N>, active: set<N>, x: N)
    requires Enterable(g, s, active, x)
    ensures Visiting(g, s, Entered(s, x), active, x, Succ(g, x))
  {
    EnteredInside(g, s, active, x);
    EnteredBounded(g, s, x, s.index);
    ReachSelf(g, x);
    assert LowTarget(g, Entered(s, x).indices, s.stack + [x], x, s.index, x);
  }

  // ----- Looking at a target

  function Min(a: int, b: int): int {
    if a <= b then a else b
  }

  function Lowered<N(==)>(s: State<N>, x: N, k: int): State<N> {
    s.(lowlinks := s.lowlinks[x := k])
  }

  lemma LoweredVisiting<N(!new)>(
    g: Graph<N>, s0: State<N>, s: State<N>, active: set<N>, x: N, low: int, todo: set<N>)
    requires Inside(g, s0, s, active, x) && low <= s.indices[x]
    requires Seen(g, s.indices, x, todo)
    requires LowReached(g, s.indices, s0.stack + [x], x, low)
    requires EdgesBounded(g, s.stack, s.indices, s0.stack, x, low, todo)
    ensures Visiting(g, s0, Lowered(s, x, low), active, x, todo)
  {
  }

  /** `target` already popped: the step only crosses it off. */
  lemma SkipVisiting<N(!new)>(g: Graph<N>, s0: State<N>, s: State<N>, active: set<N>, x: N, todo: set<N>, t: N)
    requires Visiting(g, s0, s, active, x, todo)
    requires t in s.indices && t !in s.onStack
    ensures Visiting(g, s0, s, active, x, todo - {t})
  {
  }

  lemma BackBounded<N>(
    g: Graph<N>, stack: seq<N>, indices: map<N, int>, below: seq<N>, x: N, low: int, todo: set<N>, t: N)
    requires EdgesBounded(g, stack, indices, below, x, low, todo) && t in indices
    ensures EdgesBounded(g, stack, indices, below, x, Min(low, indices[t]), todo - {t})
  {
  }

  /** A stack node numbered before `x` lies in the stack `x` was pushed on. */
  lemma LowerOnStack<N>(stack: seq<N>, indices: map<N, int>, below: seq<N>, x: N, t: N)
    requires Increasing(stack, indices) && below + [x] <= stack && t in stack && x in indices
    requires indices[t] < indices[x]
    ensures t in below
  {
    var i :| 0 <= i < |stack| && stack[i] == t;
    assert stack[|below|] == x;
    assert i < |below|;
    assert below[i] == t;
  }

  /** `target` on the stack: the low-link drops to its index. */
  lemma BackVisiting<N(!new)>(g: Graph<N>, s0: State<N>, s: State<N>, active: set<N>, x: N, todo: set<N>, t: N)
    requires Visiting(g, s0, s, active, x, todo)
    requires t in s.onStack && t in Succ(g, x)
    ensures Visiting(g, s0, Lowered(s, x, Min(s.lowlinks[x], s.indices[t])), active, x, todo - {t})
  {
    BackBounded(g, s.stack, s.indices, s0.stack, x, s.lowlinks[x], todo, t);
    if s.indices[t] < s.lowlinks[x] {
      LowerOnStack(s.stack, s.indices, s0.stack, x, t);
      ReachEdge(g, x, t);
      assert LowTarget(g, s.indices, s0.stack + [x], x, s.indices[t], t);
    }
    LoweredVisiting(g, s0, s, active, x, Min(s.lowlinks[x], s.indices[t]), todo - {t});
  }

  lemma ExtendsTransitive<N>(s0: State<N>, s1: State<N>, s2: State<N>)
    requires Extends(s0, s1) && Extends(s1, s2) && s1.lowlinks.Keys == s1.indices.Keys
    ensures Extends(s0, s2)
  {
  }

  lemma TreeInside<N(!new)>(g: Graph<N>, s0: State<N>, s: State<N>, s1: State<N>, active: set<N>, x: N, t: N)
    requires Inside(g, s0, s, active, x)
    requires Returned(g, s, s1, active + {x}, t)
    ensures Inside(g, s0, s1, active, x) && s1.lowlinks[x] == s.lowlinks[x]
  {
    ExtendsTransitive(s0, s, s1);
  }

  lemma TreeBounded<N>(
    g: Graph<N>, stack: seq<N>, indices: map<N, int>, stack1: seq<N>, indices1: map<N, int>,
    below: seq<N>, x: N, low: int, t: N, low1: int, todo: set<N>)
    requires below + [x] <= stack <= stack1 && t !in below && Kept(indices, indices1, indices.Keys)
    requires EdgesBounded(g, stack, indices, below, x, low, todo)
    requires EdgesBounded(g, stack1, indices1, stack, t, low1, {})
    ensures EdgesBounded(g, stack1, indices1, below, x, Min(low, low1), todo - {t})
  {
    forall i, w | |below| <= i < |stack1| && w in below && w in Succ(g, stack1[i])
                  && !(stack1[i] == x && w in todo - {t})
      ensures w in indices1 && Min(low, low1) <= indices1[w]
    {
      if i < |stack| {
        assert stack1[i] == stack[i];
      } else {
        assert w in (below + [x]) && w in stack;
      }
    }
  }

  lemma TreeLow<N(!new)>(
    g: Graph<N>, stack: seq<N>, indices: map<N, int>, indices1: map<N, int>,
    below: seq<N>, x: N, low: int, t: N, low1: int)
    requires Increasing(stack, indices) && below + [x] <= stack && x in indices && t in indices1
    requires Kept(indices, indices1, indices.Keys) && t in Succ(g, x)
    requires low <= indices[x] < indices1[t] && low1 <= indices1[t]
    requires LowReached(g, indices, below + [x], x, low)
    requires low1 < indices1[t] ==> LowReached(g, indices1, stack, t, low1)
    ensures LowReached(g, indices1, below + [x], x, Min(low, low1))
  {
    if low1 < low {
      var y :| LowTarget(g, indices1, stack, t, low1, y);
      ReachEdge(g, x, t);
      ReachTrans(g, x, t, y);
      LowerOnStack(stack, indices, below, x, y);
      assert LowTarget(g, indices1, below + [x], x, low1, y);
    } else {
      var y :| LowTarget(g, indices, below + [x], x, low, y);
      assert LowTarget(g, indices1, below + [x], x, low, y);
    }
  }

  lemma TreeSeen<N>(g: Graph<N>, indices: map<N, int>, indices1: map<N, int>, x: N, todo: set<N>, t: N)
    requires Seen(g, indices, x, todo) && Kept(indices, indices1, indices.Keys) && t in indices1
    ensures Seen(g, indices1, x, todo - {t})
  {
  }

  lemma TreeReached<N(!new)>(
    g: Graph<N>, s0: State<N>, s: State<N>, s1: State<N>, active: set<N>, x: N, todo: set<N>, t: N)
    requires Visiting(g, s0, s, active, x, todo)
    requires t in Succ(g, x) && Returned(g, s, s1, active + {x}, t)
    ensures LowReached(g, s1.indices, s0.stack + [x], x, Min(s.lowlinks[x], s1.lowlinks[t]))
  {
    TreeLow(g, s.stack, s.indices, s1.indices, s0.stack, x, s.lowlinks[x], t, s1.lowlinks[t]);
  }

  lemma TreeEdges<N(!new)>(
    g: Graph<N>, s0: State<N>, s: State<N>, s1: State<N>, active: set<N>, x: N, todo: set<N>, t: N)
    requires Visiting(g, s0, s, active, x, todo)
    requires t in Succ(g, x) && Returned(g, s, s1, active + {x}, t)
    ensures EdgesBounded(g, s1.stack, s1.indices, s0.stack, x, Min(s.lowlinks[x], s1.lowlinks[t]), todo - {t})
  {
    assert t !in s0.stack;
    TreeBounded(g, s.stack, s.indices, s1.stack, s1.indices, s0.stack, x, s.lowlinks[x], t, s1.lowlinks[t], todo);
  }

  /** `target` was unnumbered and has just been visited: its low-link is folded in. */
  lemma TreeVisiting<N(!new)>(
    g: Graph<N>, s0: State<N>, s: State<N>, s1: State<N>, active: set<N>, x: N, todo: set<N>, t: N)
    requires Visiting(g, s0, s, active, x, todo)
    requires t in Succ(g, x) && Returned(g, s, s1, active + {x}, t)
    ensures x in s1.lowlinks && t in s1.lowlinks
    ensures Visiting(g, s0, Lowered(s1, x, Min(s1.lowlinks[x], s1.lowlinks[t])), active, x, todo - {t})
  {
    TreeInside(g, s0, s, s1, active, x, t);
    TreeSeen(g, s.indices, s1.indices, x, todo, t);
    TreeReached(g, s0, s, s1, active, x, todo, t);
    TreeEdges(g, s0, s, s1, active, x, todo, t);
    LoweredVisiting(g, s0, s1, active, x, Min(s1.lowlinks[x], s1.lowlinks[t]), todo - {t});
  }

  lemma TreeEnterable<N(!new)>(g: Graph<N>, s0: State<N>, s: State<N>, active: set<N>, x: N, todo: set<N>, t: N)
    requires Visiting(g, s0, s, active, x, todo) && t in Succ(g, x) && t !in s.indices
    requires forall u :: u in active ==> Reach(g, u, x)
    ensures Enterable(g, s, active + {x}, t)
  {
    ReachEdge(g, x, t);
    forall u | u in active + {x} ensures Reach(g, u, t) {
      if u != x { ReachTrans(g, u, x, t); }
    }
    assert t in Nodes(g);
  }

  // ----- Leaving a node

  /** The stack from position `k` up becomes a component. */
  ghost function Popped<N>(s: State<N>, k: nat): State<N>
    requires k <= |s.stack|
  {
    var component := Elems(s.stack[k..]);
    s.(stack := s.stack[..k], onStack := s.onStack - component, components := s.components + [component])
  }

  /** No node is on the stack twice. */
  lemma PoppedOnce<N>(stack: seq<N>, indices: map<N, int>, k: nat)
    requires k <= |stack| && Increasing(stack, indices)
    ensures Elems(stack[..k]) !! Elems(stack[k..])
  {
  }

  lemma PoppedCovers<N>(stack: seq<N>, components: seq<set<N>>, component: set<N>, k: nat, v: N)
    requires k <= |stack| && component == Elems(stack[k..])
    requires v in stack || Within(components, |components|, v)
    ensures v in stack[..k] || Within(components + [component], |components| + 1, v)
  {
    var c1 := components + [component];
    if v in stack {
      assert stack == stack[..k] + stack[k..];
      assert c1[|components|] == component;
    } else {
      var j :| 0 <= j < |components| && v in components[j];
      assert v in c1[j];
    }
  }

  lemma PoppedDisjoint<N>(components: seq<set<N>>, component: set<N>)
    requires Disjoint(components) && component != {}
    requires forall i, v :: 0 <= i < |components| && v in components[i] ==> v !in component
    ensures Disjoint(components + [component])
  {
  }

  lemma PoppedGone<N>(stack: seq<N>, indices: map<N, int>, components: seq<set<N>>, k: nat, i: nat, v: N)
    requires k < |stack| && Increasing(stack, indices) && Accounted(stack, indices, components)
    requires i <= |components| && v in (components + [Elems(stack[k..])])[i]
    ensures v in indices && v !in stack[..k]
  {
  }

  lemma PoppedAccounted<N>(stack: seq<N>, indices: map<N, int>, components: seq<set<N>>, k: nat)
    requires k < |stack| && Increasing(stack, indices) && Accounted(stack, indices, components)
    ensures Accounted(stack[..k], indices, components + [Elems(stack[k..])])
  {
    var component := Elems(stack[k..]);
    var c1 := components + [component];
    assert stack[k] in component;
    assert forall v :: v in component ==> v in stack;
    PoppedDisjoint(components, component);
    forall v | v in indices ensures v in stack[..k] || Within(c1, |c1|, v) {
      PoppedCovers(stack, components, component, k, v);
    }
    forall i, v | 0 <= i < |c1| && v in c1[i] ensures v in indices && v !in stack[..k] {
      PoppedGone(stack, indices, components, k, i, v);
    }
  }

  lemma PoppedTopological<N>(
    g: Graph<N>, stack: seq<N>, indices: map<N, int>, components: seq<set<N>>, k: nat)
    requires k < |stack| && Accounted(stack, indices, components) && ReverseTopological(g, components)
    requires forall v :: v in stack[k..] ==> Succ(g, v) <= indices.Keys && Succ(g, v) !! Elems(stack[..k])
    ensures ReverseTopological(g, components + [Elems(stack[k..])])
  {
    var component := Elems(stack[k..]);
    var c1 := components + [component];
    forall i, v, w | 0 <= i < |c1| && v in c1[i] && w in Succ(g, v) ensures Within(c1, i + 1, w) {
      if i < |components| {
        assert v in components[i] && Within(components, i + 1, w);
        var j :| 0 <= j < i + 1 && j < |components| && w in components[j];
        assert w in c1[j];
      } else {
        PoppedCovers(stack, components, component, k, w);
      }
    }
  }

  lemma ActiveReach<N(!new)>(g: Graph<N>, indices: map<N, int>, active: set<N>, x: N, v: N)
    requires HasAnchor(g, indices, active + {x}, v)
    requires forall u :: u in active ==> Reach(g, u, x)
    ensures Reach(g, v, x)
  {
    var u :| Anchor(g, indices, active + {x}, v, u);
    if u != x { ReachTrans(g, v, u, x); }
  }

  lemma PoppedStrong<N(!new)>(
    g: Graph<N>, stack: seq<N>, indices: map<N, int>, components: seq<set<N>>, active: set<N>, x: N, k: nat)
    requires k < |stack| && stack[k] == x && Strong(g, components)
    requires Chained(g, stack) && Anchored(g, stack, indices, active + {x})
    requires forall u :: u in active ==> Reach(g, u, x)
    ensures Strong(g, components + [Elems(stack[k..])])
  {
    var component := Elems(stack[k..]);
    forall u, v | u in component && v in component ensures Reach(g, u, v) {
      var i :| k <= i < |stack| && stack[i] == u;
      assert u in stack && HasAnchor(g, indices, active + {x}, u);
      ActiveReach(g, indices, active, x, u);
      var j :| k <= j < |stack| && stack[j] == v;
      if j == k { ReachSelf(g, x); }
      ReachTrans(g, u, x, v);
    }
  }

  /** Below `x`, every anchor is one of the callers. */
  lemma PoppedAnchored<N(!new)>(
    g: Graph<N>, stack: seq<N>, indices: map<N, int>, active: set<N>, x: N, k: nat)
    requires k < |stack| && stack[k] == x && Increasing(stack, indices)
    requires Anchored(g, stack, indices, active + {x})
    ensures Anchored(g, stack[..k], indices, active)
  {
    forall v | v in stack[..k] ensures HasAnchor(g, indices, active, v) {
      var i :| 0 <= i < k && stack[i] == v;
      assert v in stack && HasAnchor(g, indices, active + {x}, v);
      var u :| Anchor(g, indices, active + {x}, v, u);
      assert indices[stack[i]] < indices[stack[k]];
      assert Anchor(g, indices, active, v, u);
    }
  }

  /** The visit of a component's root leaves no edge from the component into the stack below. */
  lemma RootCloses<N(!new)>(g: Graph<N>, s0: State<N>, s: State<N>, active: set<N>, x: N, v: N)
    requires Visiting(g, s0, s, active, x, {})
    requires s.lowlinks[x] == s.indices[x] && v in s.stack[|s0.stack|..] && active <= Elems(s0.stack)
    ensures Succ(g, v) <= s.indices.Keys && Succ(g, v) !! Elems(s0.stack)
  {
    var k := |s0.stack|;
    assert s.stack[k] == x;
    var i :| k <= i < |s.stack| && s.stack[i] == v;
    PoppedOnce(s.stack, s.indices, k);
    assert s.stack[..k] == s0.stack;
    assert v !in active;
    forall w | w in s0.stack ensures w !in Succ(g, v) {
      var j :| 0 <= j < k && s.stack[j] == w;
      assert s.indices[s.stack[j]] < s.indices[s.stack[k]];
    }
  }

  lemma FinishedExplored<N>(g: Graph<N>, indices: map<N, int>, active: set<N>, x: N)
    requires Explored(g, indices, active + {x}) && Seen(g, indices, x, {})
    ensures Explored(g, indices, active)
  {
  }

  lemma PoppedBookkeeping<N>(s: State<N>, k: nat)
    requires Bookkeeping(s) && k <= |s.stack| && Increasing(s.stack, s.indices)
    ensures Bookkeeping(Popped(s, k))
  {
  }

  lemma PoppedCore<N(!new)>(g: Graph<N>, s0: State<N>, s: State<N>, active: set<N>, x: N)
    requires Enterable(g, s0, active, x) && Visiting(g, s0, s, active, x, {})
    requires s.lowlinks[x] == s.indices[x]
    ensures Core(g, s0.stack, s.indices, Popped(s, |s0.stack|).components, active)
  {
    var k := |s0.stack|;
    assert s.stack[k] == x && s.stack[..k] == s0.stack;
    PoppedAccounted(s.stack, s.indices, s.components, k);
    FinishedExplored(g, s.indices, active, x);
    PoppedAnchored(g, s.stack, s.indices, active, x, k);
    PoppedStrong(g, s.stack, s.indices, s.components, active, x, k);
    forall v | v in s.stack[k..] ensures Succ(g, v) <= s.indices.Keys && Succ(g, v) !! Elems(s.stack[..k]) {
      RootCloses(g, s0, s, active, x, v);
    }
    PoppedTopological(g, s.stack, s.indices, s.components, k);
  }

  lemma PoppedExtends<N>(s0: State<N>, s: State<N>)
    requires Extends(s0, s)
    ensures Extends(s0, Popped(s, |s0.stack|)) && Popped(s, |s0.stack|).stack == s0.stack
  {
  }

  /** `x` was the first node of its component to be numbered: the component is popped. */
  lemma RootReturned<N(!new)>(g: Graph<N>, s0: State<N>, s: State<N>, active: set<N>, x: N)
    requires Enterable(g, s0, active, x) && Visiting(g, s0, s, active, x, {})
    requires s.lowlinks[x] == s.indices[x]
    ensures Returned(g, s0, Popped(s, |s0.stack|), active, x)
  {
    PoppedCore(g, s0, s, active, x);
    PoppedBookkeeping(s, |s0.stack|);
    PoppedExtends(s0, s);
  }

  lemma InnerAnchored<N(!new)>(
    g: Graph<N>, stack: seq<N>, indices: map<N, int>, below: seq<N>, active: set<N>, x: N, low: int)
    requires Increasing(stack, indices) && below + [x] <= stack && x in indices && low < indices[x]
    requires Anchored(g, stack, indices, active + {x}) && LowReached(g, indices, below + [x], x, low)
    ensures Anchored(g, stack, indices, active)
  {
    var y :| LowTarget(g, indices, below + [x], x, low, y);
    assert y in stack && HasAnchor(g, indices, active + {x}, y);
    var a :| Anchor(g, indices, active + {x}, y, a);
    ReachTrans(g, x, y, a);
    forall v | v in stack ensures HasAnchor(g, indices, active, v) {
      assert HasAnchor(g, indices, active + {x}, v);
      var u :| Anchor(g, indices, active + {x}, v, u);
      if u == x {
        ReachTrans(g, v, x, a);
        assert Anchor(g, indices, active, v, a);
      } else {
        assert Anchor(g, indices, active, v, u);
      }
    }
  }

  /** `x` reaches a node numbered before it: its nodes stay on the stack for a caller to pop. */
  lemma InnerReturned<N(!new)>(g: Graph<N>, s0: State<N>, s: State<N>, active: set<N>, x: N)
    requires Enterable(g, s0, active, x) && Visiting(g, s0, s, active, x, {})
    requires s.lowlinks[x] < s.indices[x]
    ensures Returned(g, s0, s, active, x)
  {
    FinishedExplored(g, s.indices, active, x);
    InnerAnchored(g, s.stack, s.indices, s0.stack, active, x, s.lowlinks[x]);
    InnerReached(g, s.stack, s.indices, s0.stack, x, s.lowlinks[x]);
  }

  lemma InnerReached<N(!new)>(
    g: Graph<N>, stack: seq<N>, indices: map<N, int>, below: seq<N>, x: N, low: int)
    requires Increasing(stack, indices) && below + [x] <= stack && x in indices && low < indices[x]
    requires LowReached(g, indices, below + [x], x, low)
    ensures LowReached(g, indices, below, x, low)
  {
    var y :| LowTarget(g, indices, below + [x], x, low, y);
    assert LowTarget(g, indices, below, x, low, y);
  }

  lemma PopsRoot<N(!new)>(g: Graph<N>, s0: State<N>, s: State<N>, active: set<N>, x: N, todo: set<N>)
    requires Visiting(g, s0, s, active, x, todo)
    ensures |s0.stack| < |s.stack| && s.stack[|s0.stack|] == x
    ensures forall i :: |s0.stack| < i < |s.stack| ==> s.stack[i] != x
    ensures x in s.indices && x in s.lowlinks && s0.indices.Keys <= s.indices.Keys <= Nodes(g)
    ensures s.lowlinks[x] <= s.indices[x]
  {
  }

  lemma EmptyInv<N(!new)>(g: Graph<N>)
    ensures Inv(g, State(0, [], map[], map[], {}, []), {})
  {
  }

  lemma RootEnterable<N(!new)>(g: Graph<N>, s: State<N>, x: N)
    requires Inv(g, s, {}) && x in g && x !in s.indices
    ensures Enterable(g, s, {}, x)
  {
  }

  ghost predicate Visited<N>(order: seq<N>, n: nat, numbered: set<N>) {
    forall j :: 0 <= j < n && j < |order| ==> order[j] in numbered
  }

  lemma VisitedNext<N>(order: seq<N>, n: nat, before: set<N>, after: set<N>)
    requires Visited(order, n, before) && before <= after && n < |order| && order[n] in after
    ensures Visited(order, n + 1, after)
  {
  }

  lemma ReturnedKeeps<N(!new)>(g: Graph<N>, s0: State<N>, s: State<N>, active: set<N>, x: N)
    requires Returned(g, s0, s, active, x)
    ensures Inv(g, s, active) && s0.indices.Keys <= s.indices.Keys && x in s.indices
  {
  }

  /** With no visit running the stack is empty: a node left on it would need an anchor. */
  lemma IdleStackEmpty<N(!new)>(g: Graph<N>, s: State<N>)
    requires Inv(g, s, {})
    ensures forall v :: v !in s.stack
  {
    forall v ensures v !in s.stack {
      assert !HasAnchor(g, s.indices, {}, v);
    }
  }

  /** With every key numbered and no visit running, every target is numbered too. */
  lemma CompleteNodes<N>(g: Graph<N>, indices: map<N, int>)
    requires Explored(g, indices, {}) && g.Keys <= indices.Keys <= Nodes(g)
    ensures indices.Keys == Nodes(g)
  {
  }

  lemma CompleteDecomposition<N(!new)>(g: Graph<N>, s: State<N>)
    requires Inv(g, s, {}) && g.Keys <= s.indices.Keys
    ensures Decomposition(g, s.components)
    ensures s.indices.Keys == Nodes(g) && s.onStack == {}
  {
    IdleStackEmpty(g, s);
    CompleteNodes(g, s.indices);
  }

  /** The numbers given out are 0, 1, 2, ..., one node each. */
  ghost predicate NumberedOnce<N>(s: State<N>) {
    && s.index == |s.indices|
    && (forall v :: v in s.indices ==> 0 <= s.indices[v] < s.index)
    && forall u, v :: u in s.indices && v in s.indices && u != v ==> s.indices[u] != s.indices[v]
  }

  lemma EnteredOnce<N>(s: State<N>, x: N)
    requires NumberedOnce(s) && x !in s.indices
    ensures NumberedOnce(Entered(s, x))
  {
  }

  lemma SameNumbers<N>(s: State<N>, t: State<N>)
    requires NumberedOnce(s) && t.index == s.index && t.indices == s.indices
    ensures NumberedOnce(t)
  {
  }

  // ----- The algorithm

  class Finder<N(==,!new)> {
    const graph: Graph<N>
    var index: int
    var stack: seq<N>
    var indices: map<N, int>
    var lowlinks: map<N, int>
    var onStack: set<N>
    var components: seq<set<N>>

    ghost function View(): State<N>
      reads this
    {
      State(index, stack, indices, lowlinks, onStack, components)
    }

    constructor (graph: Graph<N>)
      ensures this.graph == graph
      ensures View() == State(0, [], map[], map[], {}, [])
    {
      this.graph := graph;
      index, stack, indices, lowlinks, onStack, components := 0, [], map[], map[], {}, [];
    }

    method Enter(node: N)
      modifies this
      ensures View() == Entered(old(View()), node)
    {
      indices := indices[node := index];
      lowlinks := lowlinks[node := index];
      index := index + 1;
      stack := stack + [node];
      onStack := onStack + {node};
    }

    method Lower(node: N, low: int)
      requires node in lowlinks
      modifies this
      ensures View() == Lowered(old(View()), node, Min(old(lowlinks[node]), low))
    {
      lowlinks := lowlinks[node := if lowlinks[node] <= low then lowlinks[node] else low];
    }

    /** Pops down to and including `node`. */
    method PopComponent(node: N, ghost k: nat)
      requires k < |stack| && stack[k] == node
      requires forall i :: k < i < |stack| ==> stack[i] != node
      modifies this
      ensures View() == Popped(old(View()), k)
    {
      var component := {};
      ghost var s := stack;
      while true
        invariant k < |stack| <= |s| && stack == s[..|stack|]
        invariant component == Elems(s[|stack|..])
        invariant onStack == old(onStack) - component
        invariant index == old(index) && indices == old(indices) && lowlinks == old(lowlinks)
        invariant components == old(components)
        decreases |stack|
      {
        var target := stack[|stack| - 1];
        assert s[|stack| - 1..] == [target] + s[|stack|..];
        stack := stack[..|stack| - 1];
        onStack := onStack - {target};
        component := component + {target};
        if target == node {
          break;
        }
      }
      assert |stack| == k && stack == s[..k] && component == Elems(s[k..]);
      components := components + [component];
    }

    /** One turn of the loop over the targets of `node`. */
    method Look(node: N, target: N, ghost s0: State<N>, ghost active: set<N>, ghost todo: set<N>)
      requires NumberedOnce(View()) && Visiting(graph, s0, View(), active, node, todo)
      requires target in Succ(graph, node)
      requires forall u :: u in active ==> Reach(graph, u, node)
      modifies this
      ensures NumberedOnce(View()) && Visiting(graph, s0, View(), active, node, todo - {target})
      decreases Nodes(graph) - indices.Keys, 1
    {
      ghost var s := View();
      if target !in indices {
        TreeEnterable(graph, s0, s, active, node, todo, target);
        StrongConnect(target, active + {node});
        TreeVisiting(graph, s0, s, View(), active, node, todo, target);
        ghost var s1 := View();
        Lower(node, lowlinks[target]);
        SameNumbers(s1, View());
      } else if target in onStack {
        BackVisiting(graph, s0, s, active, node, todo, target);
        Lower(node, indices[target]);
        SameNumbers(s, View());
      } else {
        SkipVisiting(graph, s0, s, active, node, todo, target);
      }
    }

    method StrongConnect(node: N, ghost active: set<N>)
      requires NumberedOnce(View()) && Enterable(graph, View(), active, node)
      modifies this
      ensures NumberedOnce(View()) && Returned(graph, old(View()), View(), active, node)
      decreases Nodes(graph) - indices.Keys, 0
    {
      ghost var s0 := View();
      EnteredVisiting(graph, s0, active, node);
      EnteredOnce(s0, node);
      Enter(node);
      var todo := Succ(graph, node);
      while todo != {}
        invariant todo <= Succ(graph, node)
        invariant NumberedOnce(View()) && Visiting(graph, s0, View(), active, node, todo)
        decreases todo
      {
        var target :| target in todo;
        PopsRoot(graph, s0, View(), active, node, todo);
        Look(node, target, s0, active, todo);
        todo := todo - {target};
      }
      PopsRoot(graph, s0, View(), active, node, {});
      if lowlinks[node] == indices[node] {
        RootReturned(graph, s0, View(), active, node);
        ghost var s1 := View();
        PopComponent(node, |s0.stack|);
        SameNumbers(s1, View());
      } else {
        InnerReturned(graph, s0, View(), active, node);
      }
    }

    /** Visits every key not yet numbered, in the given order. */
    method Components(order: seq<N>)
      requires forall v :: v in graph <==> v in order
      requires View() == State(0, [], map[], map[], {}, [])
      modifies this
      ensures Decomposition(graph, components)
      ensures indices.Keys == Nodes(graph) && onStack == {} && NumberedOnce(View())
    {
      EmptyInv(graph);
      var i := 0;
      while i < |order|
        invariant 0 <= i <= |order|
        invariant NumberedOnce(View()) && Inv(graph, View(), {})
        invariant Visited(order, i, indices.Keys)
      {
        ghost var before := indices.Keys;
        if order[i] !in indices {
          ghost var s := View();
          RootEnterable(graph, s, order[i]);
          StrongConnect(order[i], {});
          ReturnedKeeps(graph, s, View(), {}, order[i]);
        }
        VisitedNext(order, i, before, indices.Keys);
        i := i + 1;
      }
      CompleteDecomposition(graph, View());
    }
  }

  method StronglyConnectedComponents<N(==,!new)>(graph: Graph<N>, order: seq<N>) returns (components: seq<set<N>>)
    requires forall v :: v in graph <==> v in order
    ensures Decomposition(graph, components)
  {
    var finder := new Finder(graph);
    finder.Components(order);
    components := finder.components;
  }
}
