/**
 A* routing over the fanout edges. The search is a machine whose heap is the array of the
 code. That the router is sound and complete needs only that the heap keeps its entries:
 the lemmas on labels hold for any order in which they come out.
 */
module AStar {
  import opened GraphSearch
  import opened RoutingFabric
  import opened AStarHeap

  /** A path cost; Infinite stands for the initial DBL_MAX. */
  datatype Dist = Infinite | Finite(value: real)

  predicate Improves(c: real, d: Dist) {
    d.Infinite? || c < d.value
  }

  function EdgeDelay(nodes: seq<RrNode>, timingDriven: bool, u: nat, v: nat): real
    requires u < |nodes| && v < |nodes|
  {
    if timingDriven then nodes[u].r * nodes[v].c else 1.0
  }

  function Abs(x: int): nat {
    if x < 0 then -x else x
  }

  function Manhattan(a: RrNode, b: RrNode): real {
    (Abs(a.x - b.x) + Abs(a.y - b.y)) as real
  }

  /** Edge delays summed along a walk. */
  ghost function WalkDelay(nodes: seq<RrNode>, td: bool, p: seq<nat>): real
    requires forall i :: 0 <= i < |p| ==> p[i] < |nodes|
  {
    if |p| <= 1 then 0.0
    else WalkDelay(nodes, td, p[..|p| - 1]) + EdgeDelay(nodes, td, p[|p| - 2], p[|p| - 1])
  }

  // ---------------------------------------------------------------- the search as a machine

  /**
   What the search keeps: costs, predecessors, visited flags, the heap as it stands in memory, and its pushes
   so far.
   */
  datatype Machine = Machine(cost: seq<Dist>, prev: seq<int>, visited: seq<bool>, heap: seq<Entry>, pushes: nat)

  predicate Fitted(nodes: seq<RrNode>, m: Machine) {
    |m.cost| == |m.prev| == |m.visited| == |nodes|
  }

  function ValueOf(d: Dist): real {
    if d.Finite? then d.value else 0.0
  }

  /** Edge `u` -> `v` is tried: an unvisited `v` that gets cheaper is relabelled and pushed. */
  function Relaxed(nodes: seq<RrNode>, td: bool, sink: nat, u: nat, v: nat, m: Machine): (r: Machine)
    requires Fitted(nodes, m) && u < |nodes| && v < |nodes| && sink < |nodes|
    ensures Fitted(nodes, r) && r.visited == m.visited
  {
    var c := ValueOf(m.cost[u]) + EdgeDelay(nodes, td, u, v);
    if m.visited[v] || !Improves(c, m.cost[v]) then m
    else Machine(m.cost[v := Finite(c)], m.prev[v := u], m.visited,
                 Pushed(m.heap, Entry(v, c + Manhattan(nodes[v], nodes[sink]))), m.pushes + 1)
  }

  /** The fanout edges of `u` from position `i` on are tried in order. */
  function RelaxedFrom(nodes: seq<RrNode>, td: bool, sink: nat, u: nat, i: nat, m: Machine): (r: Machine)
    requires Fitted(nodes, m) && u < |nodes| && sink < |nodes| && InRange(OutEdges(nodes)) && i <= |nodes[u].outEdges|
    ensures Fitted(nodes, r) && r.visited == m.visited
    decreases |nodes[u].outEdges| - i
  {
    if i == |nodes[u].outEdges| then m
    else
      assert nodes[u].outEdges[i] == OutEdges(nodes)[u][i];
      RelaxedFrom(nodes, td, sink, u, i + 1, Relaxed(nodes, td, sink, u, nodes[u].outEdges[i], m))
  }

  /** The first entry comes out of the heap, and its node counts as visited. */
  function Taken(m: Machine): Machine
    requires m.heap != [] && m.heap[0].node < |m.visited|
  {
    m.(visited := m.visited[m.heap[0].node := true], heap := Popped(m.heap))
  }

  /** One turn of the search loop. */
  function Turn(nodes: seq<RrNode>, td: bool, sink: nat, m: Machine): (r: Machine)
    requires Fitted(nodes, m) && sink < |nodes| && InRange(OutEdges(nodes))
    ensures Fitted(nodes, r)
  {
    if m.heap == [] || m.heap[0].node >= |nodes| then m
    else
      var u := m.heap[0].node;
      if m.visited[u] || u == sink then Taken(m)
      else RelaxedFrom(nodes, td, sink, u, 0, Taken(m))
  }

  function Turns(nodes: seq<RrNode>, td: bool, src: nat, sink: nat, k: nat): (r: Machine)
    requires src < |nodes| && sink < |nodes| && InRange(OutEdges(nodes))
    ensures Fitted(nodes, r)
  {
    if k == 0 then
      Machine(seq(|nodes|, _ => Infinite)[src := Finite(0.0)], seq(|nodes|, _ => -1), seq(|nodes|, _ => false),
              [Entry(src, Manhattan(nodes[src], nodes[sink]))], 1)
    else
      Turn(nodes, td, sink, Turns(nodes, td, src, sink, k - 1))
  }

  // ---------------------------------------------------------------- search state

  /** Costs, predecessors, and the position at which each node was visited (-1: not yet). */
  datatype Labels = Labels(cost: seq<Dist>, prev: seq<int>, rank: seq<int>)

  ghost predicate Shape(nodes: seq<RrNode>, s: Labels) {
    |s.cost| == |s.prev| == |s.rank| == |nodes| && InRange(OutEdges(nodes))
  }

  /** `v` is reached over an edge from a node visited before it, at the cost of that edge. */
  ghost predicate TreeAt(nodes: seq<RrNode>, td: bool, s: Labels, v: nat)
    requires Shape(nodes, s) && v < |nodes|
  {
    && 0 <= s.prev[v] < |nodes|
    && s.rank[s.prev[v]] >= 0 && (s.rank[v] >= 0 ==> s.rank[s.prev[v]] < s.rank[v])
    && v in nodes[s.prev[v]].outEdges
    && s.cost[s.prev[v]].Finite?
    && s.cost[v] == Finite(s.cost[s.prev[v]].value + EdgeDelay(nodes, td, s.prev[v], v))
  }

  ghost predicate Tree(nodes: seq<RrNode>, td: bool, src: nat, s: Labels) {
    && Shape(nodes, s) && src < |nodes|
    && s.cost[src] == Finite(0.0) && s.prev[src] == -1
    && (forall v :: 0 <= v < |nodes| && s.rank[v] >= 0 ==> s.cost[v].Finite?)
    && (forall v {:trigger TreeAt(nodes, td, s, v)} ::
          0 <= v < |nodes| && v != src && s.cost[v].Finite? ==> TreeAt(nodes, td, s, v))
    && (s.rank[src] < 0 ==> forall v :: 0 <= v < |nodes| && v != src ==> s.cost[v].Infinite?)
  }

  ghost predicate HasNode(heap: multiset<Entry>, v: nat) {
    exists e :: e in heap && e.node == v
  }

  /** The heap holds reached nodes only, and every reached node that is still to be visited. */
  ghost predicate Pending(n: nat, s: Labels, heap: multiset<Entry>)
    requires |s.cost| == |s.rank| == n
  {
    && (forall e :: e in heap ==> e.node < n && s.cost[e.node].Finite?)
    && (forall v :: 0 <= v < n && s.cost[v].Finite? && s.rank[v] < 0 ==> HasNode(heap, v))
  }

  /** Every successor of a visited node is reached, except those of `u` from position `i` on. */
  ghost predicate Closed(nodes: seq<RrNode>, s: Labels, u: int, i: nat)
    requires Shape(nodes, s)
  {
    forall w, k :: 0 <= w < |nodes| && s.rank[w] >= 0 && 0 <= k < |nodes[w].outEdges| && (w == u ==> k < i)
                   && nodes[w].outEdges[k] < |nodes|
                   ==> s.cost[nodes[w].outEdges[k]].Finite?
  }

  /** Fanout edges of the visited nodes among the first `n`. */
  ghost function VisitedEdges(nodes: seq<RrNode>, rank: seq<int>, n: nat): nat
    requires n <= |nodes| == |rank|
  {
    if n == 0 then 0
    else VisitedEdges(nodes, rank, n - 1) + (if rank[n - 1] >= 0 then |nodes[n - 1].outEdges| else 0)
  }

  ghost function EdgeCount(nodes: seq<RrNode>): nat {
    if nodes == [] then 0 else EdgeCount(nodes[..|nodes| - 1]) + |nodes[|nodes| - 1].outEdges|
  }

  /** How many of the first `n` nodes are unvisited. */
  ghost function Unvisited(visited: seq<bool>, n: nat): nat
    requires n <= |visited|
  {
    if n == 0 then 0 else Unvisited(visited, n - 1) + (if visited[n - 1] then 0 else 1)
  }

  lemma {:induction false} MarkCounts(visited: seq<bool>, n: nat, u: nat)
    requires n <= |visited| && u < |visited| && !visited[u]
    ensures Unvisited(visited[u := true], n) == Unvisited(visited, n) - (if u < n then 1 else 0)
  {
    if n > 0 {
      MarkCounts(visited, n - 1, u);
    }
  }

  lemma {:induction false} VisitCounts(nodes: seq<RrNode>, rank: seq<int>, n: nat, u: nat, k: nat)
    requires n <= |nodes| == |rank| && u < |nodes| && rank[u] < 0
    ensures VisitedEdges(nodes, rank[u := k], n)
            == VisitedEdges(nodes, rank, n) + (if u < n then |nodes[u].outEdges| else 0)
  {
    if n > 0 {
      VisitCounts(nodes, rank, n - 1, u, k);
    }
  }

  lemma {:induction false} VisitedAtMostAll(nodes: seq<RrNode>, rank: seq<int>, n: nat)
    requires n <= |nodes| == |rank|
    ensures VisitedEdges(nodes, rank, n) <= EdgeCount(nodes[..n])
  {
    if n > 0 {
      VisitedAtMostAll(nodes, rank, n - 1);
      assert nodes[..n][..n - 1] == nodes[..n - 1];
    }
  }

  // ---------------------------------------------------------------- steps

  /** Marking `u` as visited, last of all so far. */
  lemma MarkKeepsTree(nodes: seq<RrNode>, td: bool, src: nat, s: Labels, u: nat, k: nat)
    requires Tree(nodes, td, src, s) && u < |nodes| && s.rank[u] < 0 && s.cost[u].Finite?
    requires forall v :: 0 <= v < |nodes| ==> s.rank[v] < k
    ensures Tree(nodes, td, src, s.(rank := s.rank[u := k]))
    ensures s.rank[src] < 0 ==> u == src
  {
    var t := s.(rank := s.rank[u := k]);
    forall v | 0 <= v < |nodes| && v != src && t.cost[v].Finite? ensures TreeAt(nodes, td, t, v) {
      assert TreeAt(nodes, td, s, v);
    }
  }

  /** Relaxing edge u -> v of a visited `u` into an unvisited `v`. */
  lemma RelaxKeepsTree(nodes: seq<RrNode>, td: bool, src: nat, s: Labels, u: nat, v: nat)
    requires Tree(nodes, td, src, s) && u < |nodes| && v < |nodes|
    requires s.rank[u] >= 0 && s.rank[v] < 0 && s.rank[src] >= 0 && v in nodes[u].outEdges
    ensures var c := s.cost[u].value + EdgeDelay(nodes, td, u, v);
            Tree(nodes, td, src, s.(cost := s.cost[v := Finite(c)], prev := s.prev[v := u]))
  {
    var c := s.cost[u].value + EdgeDelay(nodes, td, u, v);
    var t := s.(cost := s.cost[v := Finite(c)], prev := s.prev[v := u]);
    forall w | 0 <= w < |nodes| && w != src && t.cost[w].Finite? ensures TreeAt(nodes, td, t, w) {
      if w != v {
        assert TreeAt(nodes, td, s, w);
      }
    }
  }

  ghost function TreePath(nodes: seq<RrNode>, td: bool, src: nat, s: Labels, v: nat): (p: seq<nat>)
    requires Tree(nodes, td, src, s) && v < |nodes| && s.rank[v] >= 0
    ensures |p| > 0 && p[0] == src && p[|p| - 1] == v
    ensures forall i :: 0 <= i < |p| ==> p[i] < |nodes|
    decreases s.rank[v]
  {
    if v == src then [v] else
      assert TreeAt(nodes, td, s, v);
      TreePath(nodes, td, src, s, s.prev[v]) + [v]
  }

  /** `p` is simple, runs over fanout edges and predecessors, and costs exactly `c`. */
  ghost predicate ExactPath(nodes: seq<RrNode>, td: bool, s: Labels, p: seq<nat>, c: real)
    requires Shape(nodes, s)
  {
    && Walk(OutEdges(nodes), p) && ChainIn(s.prev, p)
    && (forall i, j :: 0 <= i < j < |p| ==> s.rank[p[i]] < s.rank[p[j]])
    && WalkDelay(nodes, td, p) == c
  }

  lemma {:induction false} ExtendExact(nodes: seq<RrNode>, td: bool, s: Labels, front: seq<nat>, v: nat)
    requires Shape(nodes, s) && v < |nodes| && TreeAt(nodes, td, s, v) && s.rank[v] >= 0
    requires ExactPath(nodes, td, s, front, s.cost[s.prev[v]].value) && front[|front| - 1] == s.prev[v]
    ensures ExactPath(nodes, td, s, front + [v], s.cost[v].value)
  {
    var p := front + [v];
    assert p[..|p| - 1] == front;
    assert v in OutEdges(nodes)[s.prev[v]];
  }

  lemma {:induction false} TreePathIsExact(nodes: seq<RrNode>, td: bool, src: nat, s: Labels, v: nat)
    requires Tree(nodes, td, src, s) && v < |nodes| && s.rank[v] >= 0
    ensures ExactPath(nodes, td, s, TreePath(nodes, td, src, s, v), s.cost[v].value)
    decreases s.rank[v]
  {
    if v != src {
      assert TreeAt(nodes, td, s, v);
      TreePathIsExact(nodes, td, src, s, s.prev[v]);
      ExtendExact(nodes, td, s, TreePath(nodes, td, src, s, s.prev[v]), v);
    }
  }

  /** With the heap empty, what has been visited is all that can be reached. */
  lemma {:induction false} ReachedIsVisited(nodes: seq<RrNode>, td: bool, src: nat, s: Labels, p: seq<nat>)
    requires Tree(nodes, td, src, s) && Closed(nodes, s, -1, 0) && Pending(|nodes|, s, multiset{})
    requires Walk(OutEdges(nodes), p) && p[0] == src
    ensures s.rank[p[|p| - 1]] >= 0
    decreases |p|
  {
    if |p| == 1 {
      assert !HasNode(multiset{}, src);
    } else {
      var front := p[..|p| - 1];
      ReachedIsVisited(nodes, td, src, s, front);
      var u, v := p[|p| - 2], p[|p| - 1];
      assert v in OutEdges(nodes)[u];
      var k :| 0 <= k < |nodes[u].outEdges| && nodes[u].outEdges[k] == v;
      assert s.cost[v].Finite?;
      assert !HasNode(multiset{}, v);
    }
  }

  // ---------------------------------------------------------------- what a turn keeps

  /** What holds whenever the heap is about to be popped. */
  ghost predicate Between(nodes: seq<RrNode>, td: bool, src: nat, s: Labels, heap: multiset<Entry>,
                          visits: nat, pushes: nat)
  {
    && Tree(nodes, td, src, s) && Pending(|nodes|, s, heap) && Closed(nodes, s, -1, 0)
    && (forall v :: 0 <= v < |nodes| ==> s.rank[v] < visits)
    && |heap| <= pushes <= 1 + VisitedEdges(nodes, s.rank, |nodes|)
  }

  /** What holds once the first `i` fanout edges of `u`, the last node visited, are relaxed. */
  ghost predicate During(nodes: seq<RrNode>, td: bool, src: nat, s: Labels, heap: multiset<Entry>,
                         visits: nat, pushes: nat, u: nat, i: nat)
  {
    && Tree(nodes, td, src, s) && Pending(|nodes|, s, heap) && Closed(nodes, s, u, i)
    && (forall v :: 0 <= v < |nodes| ==> s.rank[v] < visits)
    && u < |nodes| && i <= |nodes[u].outEdges| && s.rank[u] >= 0 && s.rank[src] >= 0
    && |heap| <= pushes && pushes + |nodes[u].outEdges| <= 1 + VisitedEdges(nodes, s.rank, |nodes|) + i
  }

  lemma {:induction false} StartOfSearch(nodes: seq<RrNode>, td: bool, src: nat, sink: nat)
    requires src < |nodes| && sink < |nodes| && InRange(OutEdges(nodes))
    ensures Sane(nodes, td, src, Turns(nodes, td, src, sink, 0), seq(|nodes|, _ => -1), 0)
  {
    var e := Entry(src, Manhattan(nodes[src], nodes[sink]));
    assert multiset([e]) == multiset{e} && e in multiset{e};
  }

  /** A stale entry: its node has been visited already, so nothing is lost by dropping it. */
  lemma {:induction false} DropStale(nodes: seq<RrNode>, td: bool, src: nat, s: Labels, heap: multiset<Entry>, e: Entry,
                  visits: nat, pushes: nat)
    requires Between(nodes, td, src, s, heap, visits, pushes) && e in heap && s.rank[e.node] >= 0
    ensures Between(nodes, td, src, s, heap - multiset{e}, visits, pushes)
  {
    forall v | 0 <= v < |nodes| && s.cost[v].Finite? && s.rank[v] < 0 ensures HasNode(heap - multiset{e}, v) {
      var f :| f in heap && f.node == v;
      assert f in heap - multiset{e};
    }
  }

  /** An entry of an unvisited node: that node is visited next. */
  lemma {:induction false} TakeNode(nodes: seq<RrNode>, td: bool, src: nat, s: Labels, t: Labels, heap: multiset<Entry>,
                                    heap': multiset<Entry>, e: Entry, visits: nat, pushes: nat)
    requires Between(nodes, td, src, s, heap, visits, pushes) && e in heap && s.rank[e.node] < 0
    requires t == s.(rank := s.rank[e.node := visits]) && heap' == heap - multiset{e}
    ensures During(nodes, td, src, t, heap', visits + 1, pushes, e.node, 0)
  {
    MarkKeepsTree(nodes, td, src, s, e.node, visits);
    VisitCounts(nodes, s.rank, |nodes|, e.node, visits);
    forall v | 0 <= v < |nodes| && t.cost[v].Finite? && t.rank[v] < 0 ensures HasNode(heap', v) {
      var f :| f in heap && f.node == v;
      assert f in heap';
    }
  }

  /** Edge number `i` of `u` leads to a node that needs no update. */
  lemma PassEdge(nodes: seq<RrNode>, td: bool, src: nat, s: Labels, heap: multiset<Entry>,
                 visits: nat, pushes: nat, u: nat, i: nat)
    requires During(nodes, td, src, s, heap, visits, pushes, u, i) && i < |nodes[u].outEdges|
    requires nodes[u].outEdges[i] < |nodes| && s.cost[nodes[u].outEdges[i]].Finite?
    ensures During(nodes, td, src, s, heap, visits, pushes, u, i + 1)
  {
  }

  /** Edge number `i` of `u` relabels its unvisited end, which goes into the heap. */
  lemma RelaxEdge(nodes: seq<RrNode>, td: bool, src: nat, s: Labels, t: Labels, heap: multiset<Entry>,
                  heap': multiset<Entry>, visits: nat, pushes: nat, u: nat, i: nat, e: Entry)
    requires During(nodes, td, src, s, heap, visits, pushes, u, i) && i < |nodes[u].outEdges|
    requires e.node == nodes[u].outEdges[i] && e.node < |nodes| && s.rank[e.node] < 0
    requires var c := s.cost[u].value + EdgeDelay(nodes, td, u, e.node);
             t == s.(cost := s.cost[e.node := Finite(c)], prev := s.prev[e.node := u])
    requires heap' == heap + multiset{e}
    ensures During(nodes, td, src, t, heap', visits, pushes + 1, u, i + 1)
  {
    RelaxKeepsTree(nodes, td, src, s, u, e.node);
    assert e in heap';
    forall v | 0 <= v < |nodes| && t.cost[v].Finite? && t.rank[v] < 0 ensures HasNode(heap', v) {
      if v != e.node {
        var f :| f in heap && f.node == v;
        assert f in heap';
      }
    }
  }

  lemma EdgesDone(nodes: seq<RrNode>, td: bool, src: nat, s: Labels, heap: multiset<Entry>,
                  visits: nat, pushes: nat, u: nat)
    requires u < |nodes| && During(nodes, td, src, s, heap, visits, pushes, u, |nodes[u].outEdges|)
    ensures Between(nodes, td, src, s, heap, visits, pushes)
  {
  }

  ghost predicate FlagsAre(visited: seq<bool>, rank: seq<int>) {
    |visited| == |rank| && forall v :: 0 <= v < |rank| ==> visited[v] == (rank[v] >= 0)
  }

  /** The machine is between two turns, its visited nodes being ranked in the order they were visited. */
  ghost predicate Sane(nodes: seq<RrNode>, td: bool, src: nat, m: Machine, rank: seq<int>, visits: nat) {
    && Fitted(nodes, m) && FlagsAre(m.visited, rank)
    && Between(nodes, td, src, Labels(m.cost, m.prev, rank), multiset(m.heap), visits, m.pushes)
  }

  /** The machine is in the middle of a turn: `i` fanout edges of `u` have been tried. */
  ghost predicate Relaxing(nodes: seq<RrNode>, td: bool, src: nat, m: Machine, rank: seq<int>, visits: nat, u: nat,
                           i: nat)
  {
    && Fitted(nodes, m) && FlagsAre(m.visited, rank)
    && During(nodes, td, src, Labels(m.cost, m.prev, rank), multiset(m.heap), visits, m.pushes, u, i)
  }

  lemma {:induction false} FiniteWhenRelaxed(nodes: seq<RrNode>, td: bool, src: nat, s: Labels, heap: multiset<Entry>,
                                             visits: nat, pushes: nat, u: nat, i: nat)
    requires During(nodes, td, src, s, heap, visits, pushes, u, i)
    ensures |s.cost| == |s.rank| == |nodes| && s.cost[u].Finite?
    ensures forall v :: 0 <= v < |nodes| && s.rank[v] >= 0 ==> s.cost[v].Finite?
  {
  }

  /** Edge number `i` of `u` leads to a node that keeps its label. */
  lemma {:induction false} EdgePassed(nodes: seq<RrNode>, td: bool, src: nat, m: Machine,
                                      rank: seq<int>, visits: nat, u: nat, i: nat)
    requires Relaxing(nodes, td, src, m, rank, visits, u, i)
    requires i < |nodes[u].outEdges| && nodes[u].outEdges[i] < |nodes|
    requires var v := nodes[u].outEdges[i];
             m.visited[v] || !Improves(ValueOf(m.cost[u]) + EdgeDelay(nodes, td, u, v), m.cost[v])
    ensures Relaxing(nodes, td, src, m, rank, visits, u, i + 1)
  {
    var s := Labels(m.cost, m.prev, rank);
    assert m.cost[nodes[u].outEdges[i]].Finite? by {
      FiniteWhenRelaxed(nodes, td, src, s, multiset(m.heap), visits, m.pushes, u, i);
    }
    PassEdge(nodes, td, src, s, multiset(m.heap), visits, m.pushes, u, i);
  }

  /** Edge number `i` of `u` leads to an unvisited node, which is relabelled and pushed. */
  lemma {:induction false} EdgeTaken(nodes: seq<RrNode>, td: bool, src: nat, m: Machine, r: Machine,
                                     rank: seq<int>, visits: nat, u: nat, i: nat, e: Entry)
    requires Relaxing(nodes, td, src, m, rank, visits, u, i) && i < |nodes[u].outEdges|
    requires e.node == nodes[u].outEdges[i] && e.node < |nodes| && !m.visited[e.node]
    requires var c := Finite(ValueOf(m.cost[u]) + EdgeDelay(nodes, td, u, e.node));
             r == Machine(m.cost[e.node := c], m.prev[e.node := u], m.visited, Pushed(m.heap, e), m.pushes + 1)
    ensures Relaxing(nodes, td, src, r, rank, visits, u, i + 1)
  {
    var s := Labels(m.cost, m.prev, rank);
    assert m.cost[u].Finite? by {
      FiniteWhenRelaxed(nodes, td, src, s, multiset(m.heap), visits, m.pushes, u, i);
    }
    PushedHolds(m.heap, e);
    RelaxEdge(nodes, td, src, s, Labels(r.cost, r.prev, rank), multiset(m.heap), multiset(r.heap),
              visits, m.pushes, u, i, e);
  }

  lemma {:induction false} EdgeRelaxed(nodes: seq<RrNode>, td: bool, src: nat, sink: nat, m: Machine, r: Machine,
                                       rank: seq<int>, visits: nat, u: nat, i: nat)
    requires Relaxing(nodes, td, src, m, rank, visits, u, i) && sink < |nodes|
    requires i < |nodes[u].outEdges| && nodes[u].outEdges[i] < |nodes|
    requires r == Relaxed(nodes, td, sink, u, nodes[u].outEdges[i], m)
    ensures Relaxing(nodes, td, src, r, rank, visits, u, i + 1)
  {
    var v := nodes[u].outEdges[i];
    var c := ValueOf(m.cost[u]) + EdgeDelay(nodes, td, u, v);
    if m.visited[v] || !Improves(c, m.cost[v]) {
      EdgePassed(nodes, td, src, r, rank, visits, u, i);
    } else {
      EdgeTaken(nodes, td, src, m, r, rank, visits, u, i, Entry(v, c + Manhattan(nodes[v], nodes[sink])));
    }
  }

  lemma {:induction false} EdgesRelaxed(nodes: seq<RrNode>, td: bool, src: nat, sink: nat, m: Machine, r: Machine,
                                        rank: seq<int>, visits: nat, u: nat, i: nat)
    requires Relaxing(nodes, td, src, m, rank, visits, u, i) && sink < |nodes| && InRange(OutEdges(nodes))
    requires i <= |nodes[u].outEdges| && r == RelaxedFrom(nodes, td, sink, u, i, m)
    ensures Relaxing(nodes, td, src, r, rank, visits, u, |nodes[u].outEdges|)
    decreases |nodes[u].outEdges| - i
  {
    if i < |nodes[u].outEdges| {
      assert nodes[u].outEdges[i] == OutEdges(nodes)[u][i];
      var next := Relaxed(nodes, td, sink, u, nodes[u].outEdges[i], m);
      EdgeRelaxed(nodes, td, src, sink, m, next, rank, visits, u, i);
      EdgesRelaxed(nodes, td, src, sink, next, r, rank, visits, u, i + 1);
    }
  }

  /** An entry of a visited node comes out: nothing but the heap changes. */
  lemma {:induction false} StaleTurn(nodes: seq<RrNode>, td: bool, src: nat, m: Machine, rank: seq<int>, visits: nat)
    requires Sane(nodes, td, src, m, rank, visits) && m.heap != []
    ensures m.heap[0].node < |nodes|
    ensures m.visited[m.heap[0].node] ==> Sane(nodes, td, src, Taken(m), rank, visits)
  {
    var e := m.heap[0];
    assert e in multiset(m.heap);
    PoppedHolds(m.heap);
    if m.visited[e.node] {
      DropStale(nodes, td, src, Labels(m.cost, m.prev, rank), multiset(m.heap), e, visits, m.pushes);
      assert m.visited[e.node := true] == m.visited;
    }
  }

  /** An entry of an unvisited node comes out: that node is visited last so far, and its edges are to be tried. */
  lemma {:induction false} NewTurn(nodes: seq<RrNode>, td: bool, src: nat, m: Machine, rank: seq<int>, visits: nat)
    requires Sane(nodes, td, src, m, rank, visits) && m.heap != []
    requires m.heap[0].node < |nodes| && !m.visited[m.heap[0].node]
    ensures Relaxing(nodes, td, src, Taken(m), rank[m.heap[0].node := visits], visits + 1, m.heap[0].node, 0)
  {
    var e := m.heap[0];
    assert e in multiset(m.heap);
    PoppedHolds(m.heap);
    TakeNode(nodes, td, src, Labels(m.cost, m.prev, rank), Labels(m.cost, m.prev, rank[e.node := visits]),
             multiset(m.heap), multiset(Popped(m.heap)), e, visits, m.pushes);
  }

  /** What a turn that does not reach the sink leads to. */
  lemma {:induction false} TurnKeeps(nodes: seq<RrNode>, td: bool, src: nat, sink: nat, m: Machine, t: Machine,
                                     rank: seq<int>, visits: nat)
    returns (rank': seq<int>, visits': nat)
    requires Sane(nodes, td, src, m, rank, visits) && sink < |nodes| && InRange(OutEdges(nodes))
    requires t == Turn(nodes, td, sink, m) && (m.heap != [] ==> m.heap[0].node != sink)
    ensures Sane(nodes, td, src, t, rank', visits')
  {
    rank', visits' := rank, visits;
    if m.heap != [] {
      var u := m.heap[0].node;
      StaleTurn(nodes, td, src, m, rank, visits);
      if !m.visited[u] {
        NewTurn(nodes, td, src, m, rank, visits);
        rank', visits' := rank[u := visits], visits + 1;
        EdgesRelaxed(nodes, td, src, sink, Taken(m), t, rank', visits', u, 0);
        EdgesDone(nodes, td, src, Labels(t.cost, t.prev, rank'), multiset(t.heap), visits', t.pushes, u);
      }
    }
  }

  /** A turn visits the node it takes out, and shortens the heap when that node was visited before. */
  lemma {:induction false} TurnMarks(nodes: seq<RrNode>, td: bool, sink: nat, m: Machine)
    requires Fitted(nodes, m) && sink < |nodes| && InRange(OutEdges(nodes)) && m.heap != [] && m.heap[0].node < |nodes|
    ensures var t, u := Turn(nodes, td, sink, m), m.heap[0].node;
            && t.visited == m.visited[u := true]
            && (Unvisited(t.visited, |nodes|) < Unvisited(m.visited, |nodes|)
                || (t.visited == m.visited && |t.heap| < |m.heap|))
  {
    var u := m.heap[0].node;
    if m.visited[u] {
      assert m.visited[u := true] == m.visited;
    } else {
      MarkCounts(m.visited, |nodes|, u);
    }
  }

  /** Until the sink is visited, the machine has a ranking of its visited nodes. */
  lemma {:induction false} RunIsSane(nodes: seq<RrNode>, td: bool, src: nat, sink: nat, k: nat)
    returns (rank: seq<int>, visits: nat)
    requires src < |nodes| && sink < |nodes| && InRange(OutEdges(nodes))
    requires !Turns(nodes, td, src, sink, k).visited[sink]
    ensures Sane(nodes, td, src, Turns(nodes, td, src, sink, k), rank, visits)
  {
    if k == 0 {
      StartOfSearch(nodes, td, src, sink);
      return seq(|nodes|, _ => -1), 0;
    }
    var m, t := Turns(nodes, td, src, sink, k - 1), Turns(nodes, td, src, sink, k);
    VisitedBefore(nodes, td, src, sink, k);
    rank, visits := RunIsSane(nodes, td, src, sink, k - 1);
    rank, visits := TurnKeeps(nodes, td, src, sink, m, t, rank, visits);
  }

  /** An entry that comes out names a node, and until the sink comes out the search makes progress. */
  lemma {:induction false} NextTurn(nodes: seq<RrNode>, td: bool, src: nat, sink: nat, k: nat, m: Machine)
    requires src < |nodes| && sink < |nodes| && InRange(OutEdges(nodes))
    requires m == Turns(nodes, td, src, sink, k) && !m.visited[sink] && m.heap != []
    ensures m.heap[0].node < |nodes|
    ensures var t := Turn(nodes, td, sink, m);
            && (t.visited[sink] <==> m.heap[0].node == sink)
            && (Unvisited(t.visited, |nodes|) < Unvisited(m.visited, |nodes|)
                || (t.visited == m.visited && |t.heap| < |m.heap|))
  {
    var rank, visits := RunIsSane(nodes, td, src, sink, k);
    StaleTurn(nodes, td, src, m, rank, visits);
    TurnMarks(nodes, td, sink, m);
  }

  /** The turn that takes the sink out of the heap completes its path. */
  lemma {:induction false} LastTurn(nodes: seq<RrNode>, td: bool, src: nat, sink: nat, k: nat, m: Machine, t: Machine)
    returns (rank: seq<int>)
    requires src < |nodes| && sink < |nodes| && InRange(OutEdges(nodes))
    requires m == Turns(nodes, td, src, sink, k) && t == Turn(nodes, td, sink, m)
    requires !m.visited[sink] && m.heap != [] && m.heap[0].node == sink
    ensures |t.cost| == |t.prev| == |rank| == |nodes|
    ensures Tree(nodes, td, src, Labels(t.cost, t.prev, rank)) && rank[sink] >= 0
    ensures |t.heap| <= t.pushes <= 1 + EdgeCount(nodes)
  {
    var visits;
    rank, visits := RunIsSane(nodes, td, src, sink, k);
    NewTurn(nodes, td, src, m, rank, visits);
    rank := rank[sink := visits];
    VisitedAtMostAll(nodes, rank, |nodes|);
    assert nodes[..|nodes|] == nodes && |multiset(t.heap)| == |t.heap|;
  }

  lemma {:induction false} SinkVisited(nodes: seq<RrNode>, td: bool, src: nat, sink: nat, s: Labels)
    requires Tree(nodes, td, src, s) && sink < |nodes| && s.rank[sink] >= 0
    ensures Reaches(OutEdges(nodes), src, sink)
  {
    TreePathIsExact(nodes, td, src, s, sink);
    assert WalkFromTo(OutEdges(nodes), TreePath(nodes, td, src, s, sink), src, sink);
  }

  /** With the heap empty and the sink not visited, the sink cannot be reached. */
  lemma {:induction false} SinkMissed(nodes: seq<RrNode>, td: bool, src: nat, sink: nat, k: nat, m: Machine)
    requires src < |nodes| && sink < |nodes| && InRange(OutEdges(nodes))
    requires m == Turns(nodes, td, src, sink, k) && !m.visited[sink] && m.heap == []
    ensures !Reaches(OutEdges(nodes), src, sink)
  {
    var rank, visits := RunIsSane(nodes, td, src, sink, k);
    assert multiset(m.heap) == multiset{};
    forall p ensures !WalkFromTo(OutEdges(nodes), p, src, sink) {
      if WalkFromTo(OutEdges(nodes), p, src, sink) {
        ReachedIsVisited(nodes, td, src, Labels(m.cost, m.prev, rank), p);
      }
    }
  }

  // ---------------------------------------------------------------- the size of the heap

  lemma {:induction false} PushesBounded(nodes: seq<RrNode>, td: bool, src: nat, sink: nat, k: nat)
    requires src < |nodes| && sink < |nodes| && InRange(OutEdges(nodes))
    requires !Turns(nodes, td, src, sink, k).visited[sink]
    ensures var m := Turns(nodes, td, src, sink, k); |m.heap| <= m.pushes <= 1 + EdgeCount(nodes)
  {
    var m := Turns(nodes, td, src, sink, k);
    var rank, visits := RunIsSane(nodes, td, src, sink, k);
    VisitedAtMostAll(nodes, rank, |nodes|);
    assert nodes[..|nodes|] == nodes && |multiset(m.heap)| == |m.heap|;
  }

  lemma {:induction false} VisitedBefore(nodes: seq<RrNode>, td: bool, src: nat, sink: nat, k: nat)
    requires src < |nodes| && sink < |nodes| && InRange(OutEdges(nodes))
    requires k > 0 && !Turns(nodes, td, src, sink, k).visited[sink]
    ensures var m := Turns(nodes, td, src, sink, k - 1);
            !m.visited[sink] && (m.heap != [] ==> m.heap[0].node != sink)
  {
    var m := Turns(nodes, td, src, sink, k - 1);
    if m.heap != [] && m.heap[0].node < |nodes| {
      TurnMarks(nodes, td, sink, m);
    }
  }

  /** The search ended after `turns` turns: the sink has just come out of the heap, or the heap is empty. */
  ghost predicate Halted(nodes: seq<RrNode>, td: bool, src: nat, sink: nat, turns: nat, found: bool)
    requires src < |nodes| && sink < |nodes| && InRange(OutEdges(nodes))
  {
    var m := Turns(nodes, td, src, sink, if found && turns > 0 then turns - 1 else turns);
    && !m.visited[sink]
    && (if found then turns > 0 && m.heap != [] && m.heap[0].node == sink else m.heap == [])
  }

  lemma {:induction false} HaltsEmpty(nodes: seq<RrNode>, td: bool, src: nat, sink: nat, turns: nat, m: Machine)
    requires src < |nodes| && sink < |nodes| && InRange(OutEdges(nodes)) && m == Turns(nodes, td, src, sink, turns)
    requires !m.visited[sink] && m.heap == []
    ensures Halted(nodes, td, src, sink, turns, false)
  {
  }

  lemma {:induction false} HaltedMeaning(nodes: seq<RrNode>, td: bool, src: nat, sink: nat, turns: nat, found: bool)
    returns (rank: seq<int>)
    requires src < |nodes| && sink < |nodes| && InRange(OutEdges(nodes))
    requires Halted(nodes, td, src, sink, turns, found)
    ensures found <==> Reaches(OutEdges(nodes), src, sink)
    ensures var last := Turns(nodes, td, src, sink, turns);
            && |last.heap| <= last.pushes <= 1 + EdgeCount(nodes)
            && (found ==>
                   |rank| == |nodes| && Tree(nodes, td, src, Labels(last.cost, last.prev, rank)) && rank[sink] >= 0)
  {
    var last := Turns(nodes, td, src, sink, turns);
    rank := [];
    if found {
      var before := Turns(nodes, td, src, sink, turns - 1);
      rank := LastTurn(nodes, td, src, sink, turns - 1, before, last);
      SinkVisited(nodes, td, src, sink, Labels(last.cost, last.prev, rank));
    } else {
      PushesBounded(nodes, td, src, sink, turns);
      SinkMissed(nodes, td, src, sink, turns, last);
    }
  }

  // ---------------------------------------------------------------- the router

  ghost function Now(cost: array<Dist>, prev: array<int>, visited: array<bool>, heap: Heap, pushes: nat): Machine
    reads cost, prev, visited, heap
  {
    Machine(cost[..], prev[..], visited[..], heap.entries, pushes)
  }

  /**
   Routes over fanout edges. `turns` counts the turns of the search loop, and `last` is the state after them.
   */
  method RouteAstar(g: RrGraph, src: nat, sink: nat, path: RoutingPath, timingDriven: bool)
    returns (ret: int, ghost turns: nat, ghost last: Machine)
    requires g.Valid() && src < |g.nodes| && sink < |g.nodes| && path.Valid()
    modifies path, path.nodes
    ensures path.Valid() && InRange(OutEdges(g.nodes))
    ensures ret == 0 || ret == -1
    ensures ret == 0 <==> Reaches(OutEdges(g.nodes), src, sink)
    ensures ret == -1 ==> path.length == 0
    ensures ret == 0 ==> RoutedOverFanout(g.nodes, timingDriven, src, sink, path.Nodes(), path.totalCost)
    ensures last == Turns(g.nodes, timingDriven, src, sink, turns) && last.pushes <= 1 + EdgeCount(g.nodes)
    ensures ret == 0 ==> path.totalDelay == path.totalCost && last.cost[sink] == Finite(path.totalCost)
    ensures Halted(g.nodes, timingDriven, src, sink, turns, ret == 0)
  {
    MirroredInRange(g.nodes);
    var cost, prev, visited, heap := Prepare(g.nodes, timingDriven, src, sink);
    var found;
    found, turns, last := Search(g.nodes, timingDriven, src, sink, cost, prev, visited, heap);
    ghost var rank := HaltedMeaning(g.nodes, timingDriven, src, sink, turns, found);
    if !found {
      path.length := 0;
      return -1, turns, last;
    }
    RecordFanout(g.nodes, timingDriven, src, sink, cost, prev, path, rank);
    return 0, turns, last;
  }

  /** Traces the path back from the visited sink. */
  method RecordFanout(nodes: seq<RrNode>, td: bool, ghost src: nat, sink: nat, cost: array<Dist>, prev: array<int>,
                      path: RoutingPath, ghost rank: seq<int>)
    requires cost.Length == prev.Length == |nodes| == |rank| && sink < |nodes| && path.Valid()
    requires prev as object != path.nodes && cost as object != path.nodes
    requires Tree(nodes, td, src, Labels(cost[..], prev[..], rank)) && rank[sink] >= 0
    modifies path, path.nodes
    ensures path.Valid() && RoutedOverFanout(nodes, td, src, sink, path.Nodes(), path.totalCost)
    ensures path.totalDelay == path.totalCost && cost[sink] == Finite(path.totalCost)
  {
    ghost var s := Labels(cost[..], prev[..], rank);
    ghost var p := TreePath(nodes, td, src, s, sink);
    TreePathIsExact(nodes, td, src, s, sink);
    path.Backtrace(prev, sink, p);
    assert s.cost[sink].Finite?;
    path.totalCost := cost[sink].value;
    path.totalDelay := path.totalCost;
    assert WalkFromTo(OutEdges(nodes), p, src, sink) && Simple(p);
  }

  /** The path buffer holds the tail of a simple fanout walk whose edge delays add up to `cost`. */
  ghost predicate RoutedOverFanout(nodes: seq<RrNode>, td: bool, src: nat, sink: nat, p: seq<nat>, cost: real) {
    exists w :: WalkFromTo(OutEdges(nodes), w, src, sink) && Simple(w)
                && cost == WalkDelay(nodes, td, w) && p == Last(w, MAX_PATH_LEN)
  }

  /** Only the source is reached, at no cost, and only the source is in the heap. */
  method Prepare(nodes: seq<RrNode>, ghost td: bool, src: nat, sink: nat)
    returns (cost: array<Dist>, prev: array<int>, visited: array<bool>, heap: Heap)
    requires src < |nodes| && sink < |nodes| && InRange(OutEdges(nodes))
    ensures fresh(cost) && fresh(prev) && fresh(visited) && fresh(heap)
    ensures cost as object != prev && cost as object != visited && prev as object != visited
    ensures Now(cost, prev, visited, heap, 1) == Turns(nodes, td, src, sink, 0)
  {
    var n := |nodes|;
    cost := new Dist[n](_ => Infinite);
    prev := new int[n](_ => -1);
    visited := new bool[n](_ => false);
    cost[src] := Finite(0.0);
    heap := new Heap();
    heap.Push(src, Manhattan(nodes[src], nodes[sink]));
    ghost var start := Turns(nodes, td, src, sink, 0);
    assert cost[..] == start.cost && prev[..] == start.prev && visited[..] == start.visited;
  }

  /** Pops until the sink is visited or the heap is empty. */
  method Search(nodes: seq<RrNode>, td: bool, src: nat, sink: nat,
                cost: array<Dist>, prev: array<int>, visited: array<bool>, heap: Heap)
    returns (found: bool, ghost turns: nat, ghost last: Machine)
    requires cost as object != prev && cost as object != visited && prev as object != visited
    requires src < |nodes| && sink < |nodes| && InRange(OutEdges(nodes))
    requires Now(cost, prev, visited, heap, 1) == Turns(nodes, td, src, sink, 0)
    modifies cost, prev, visited, heap
    ensures Halted(nodes, td, src, sink, turns, found)
    ensures last == Turns(nodes, td, src, sink, turns) && last.cost == cost[..] && last.prev == prev[..]
  {
    turns, last := 0, Turns(nodes, td, src, sink, 0);
    found := false;
    while |heap.entries| > 0
      invariant last == Turns(nodes, td, src, sink, turns)
      invariant last == Machine(cost[..], prev[..], visited[..], heap.entries, last.pushes)
      invariant !last.visited[sink] && !found
      decreases Unvisited(last.visited, |nodes|), |last.heap|
      modifies cost, prev, visited, heap
    {
      found, last := NextOne(nodes, td, src, sink, turns, cost, prev, visited, heap, last);
      turns := turns + 1;
      if found {
        return;
      }
    }
    HaltsEmpty(nodes, td, src, sink, turns, last);
  }

  /** Turn number `k` of the search. */
  method NextOne(nodes: seq<RrNode>, td: bool, ghost src: nat, sink: nat, ghost k: nat, cost: array<Dist>,
                 prev: array<int>, visited: array<bool>, heap: Heap, ghost m: Machine)
    returns (found: bool, ghost last: Machine)
    requires cost as object != prev && cost as object != visited && prev as object != visited
    requires src < |nodes| && sink < |nodes| && InRange(OutEdges(nodes))
    requires m == Turns(nodes, td, src, sink, k) == Now(cost, prev, visited, heap, m.pushes)
    requires !m.visited[sink] && m.heap != []
    modifies cost, prev, visited, heap
    ensures last == Turns(nodes, td, src, sink, k + 1) == Now(cost, prev, visited, heap, last.pushes)
    ensures if found then Halted(nodes, td, src, sink, k + 1, true) else !last.visited[sink]
    ensures Unvisited(last.visited, |nodes|) < Unvisited(m.visited, |nodes|)
            || (last.visited == m.visited && |last.heap| < |m.heap|)
  {
    NextTurn(nodes, td, src, sink, k, m);
    found, last := OneTurn(nodes, td, sink, cost, prev, visited, heap, m);
  }

  /** One turn of the loop; `found` tells that the sink came out of the heap for the first time. */
  method OneTurn(nodes: seq<RrNode>, td: bool, sink: nat, cost: array<Dist>, prev: array<int>, visited: array<bool>,
                 heap: Heap, ghost m: Machine)
    returns (found: bool, ghost last: Machine)
    requires cost as object != prev && cost as object != visited && prev as object != visited
    requires m == Now(cost, prev, visited, heap, m.pushes) && Fitted(nodes, m)
    requires sink < |nodes| && InRange(OutEdges(nodes)) && !m.visited[sink]
    requires m.heap != [] && m.heap[0].node < |nodes|
    modifies cost, prev, visited, heap
    ensures last == Turn(nodes, td, sink, m) == Now(cost, prev, visited, heap, last.pushes)
    ensures found <==> m.heap[0].node == sink
  {
    last := Taken(m);
    var u := heap.Pop();
    found := false;
    if visited[u] {
      assert m.visited[u := true] == m.visited;
      return;
    }
    visited[u] := true;
    assert visited[..] == last.visited;
    if u == sink {
      found := true;
      return;
    }
    last := RelaxAll(nodes, td, sink, u, cost, prev, visited, heap, last);
  }

  /** Tries every fanout edge of `u`. */
  method RelaxAll(nodes: seq<RrNode>, td: bool, sink: nat, u: nat, cost: array<Dist>, prev: array<int>,
                  visited: array<bool>, heap: Heap, ghost m: Machine)
    returns (ghost last: Machine)
    requires cost as object != prev && cost as object != visited && prev as object != visited
    requires m == Now(cost, prev, visited, heap, m.pushes) && Fitted(nodes, m)
    requires sink < |nodes| && u < |nodes| && InRange(OutEdges(nodes))
    modifies cost, prev, heap
    ensures last == RelaxedFrom(nodes, td, sink, u, 0, m) == Now(cost, prev, visited, heap, last.pushes)
  {
    last := m;
    var nu := nodes[u];
    var i := 0;
    while i < |nu.outEdges|
      invariant 0 <= i <= |nu.outEdges|
      invariant last == Now(cost, prev, visited, heap, last.pushes) && Fitted(nodes, last)
      invariant RelaxedFrom(nodes, td, sink, u, i, last) == RelaxedFrom(nodes, td, sink, u, 0, m)
    {
      assert OutEdges(nodes)[u][i] == nu.outEdges[i];
      last := RelaxOne(nodes, td, sink, u, nu.outEdges[i], cost, prev, visited, heap, last);
      i := i + 1;
    }
  }

  method RelaxOne(nodes: seq<RrNode>, td: bool, sink: nat, u: nat, v: nat, cost: array<Dist>, prev: array<int>,
                  visited: array<bool>, heap: Heap, ghost m: Machine)
    returns (ghost last: Machine)
    requires cost as object != prev && cost as object != visited && prev as object != visited
    requires m == Now(cost, prev, visited, heap, m.pushes) && Fitted(nodes, m)
    requires sink < |nodes| && u < |nodes| && v < |nodes|
    modifies cost, prev, heap
    ensures last == Relaxed(nodes, td, sink, u, v, m) == Now(cost, prev, visited, heap, last.pushes)
  {
    last := Relaxed(nodes, td, sink, u, v, m);
    assert cost[u] == m.cost[u] && cost[v] == m.cost[v] && visited[v] == m.visited[v];
    if visited[v] {
      return;
    }
    var newCost := ValueOf(cost[u]) + EdgeDelay(nodes, td, u, v);
    if Improves(newCost, cost[v]) {
      cost[v] := Finite(newCost);
      prev[v] := u;
      heap.Push(v, newCost + Manhattan(nodes[v], nodes[sink]));
      assert cost[..] == last.cost && prev[..] == last.prev;
    }
  }
}
