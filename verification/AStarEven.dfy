/**
 The size of the router's heap when every edge takes the same time, as in untimed routing. A
 node is then pushed again only when a way with fewer edges is found after a longer one, and
 that takes more turns.
 */
module AStarEven {
  import opened GraphSearch
  import opened RoutingFabric
  import opened AStarHeap
  import opened AStar
  import opened AStarRoom

  ghost predicate EvenDelays(nodes: seq<RrNode>, td: bool, d: real) {
    d > 0.0 && forall u: nat, v: nat :: u < |nodes| && v < |nodes| ==> EdgeDelay(nodes, td, u, v) == d
  }

  /** The delay fields are as the interface sets them. */
  ghost predicate AsAdded(nodes: seq<RrNode>) {
    forall v :: 0 <= v < |nodes| ==> nodes[v].r == NewNode(RrSource, 0, 0).r && nodes[v].c == NewNode(RrSource, 0, 0).c
  }

  /** Every search of the mode on every graph of `n` nodes and at most `e` edges with equal delays has room. */
  ghost predicate AlwaysEvenRoom(td: bool, n: nat, e: nat) {
    forall nodes, src: nat, sink: nat, d: real {:trigger HasRoom(nodes, td, src, sink), EvenDelays(nodes, td, d)} ::
      Sized(nodes, n, e) && EvenDelays(nodes, td, d) && src < n && sink < n ==> HasRoom(nodes, td, src, sink)
  }

  // ---------------------------------------------------------------- how often a node is pushed

  /** The number of edges a node's label stands for (-1: none yet), and how often it was pushed. */
  datatype Tally = Tally(level: seq<int>, count: seq<nat>)

  ghost predicate Tallied(n: nat, d: real, m: Machine, t: Tally) {
    && |m.cost| == |m.visited| == |t.level| == |t.count| == n
    && forall v :: 0 <= v < n ==>
         if t.level[v] < 0 then m.cost[v] == Infinite && t.count[v] == 0
         else m.cost[v] == Finite(Legs(t.level[v], d)) && t.count[v] >= 1
  }

  /** The delay of so many edges. */
  function Legs(l: nat, d: real): real {
    if l == 0 then 0.0 else Legs(l - 1, d) + d
  }

  lemma {:induction false} LegsGrow(a: nat, b: nat, d: real)
    requires d > 0.0 && a < b
    ensures Legs(a, d) < Legs(b, d)
  {
    if a + 1 < b {
      LegsGrow(a, b - 1, d);
    }
  }

  /** Another push costs one edge of the label and one visited node, the first a visited node for each edge. */
  ghost predicate Paid(t: Tally, v: nat, j: int)
    requires v < |t.level| == |t.count|
  {
    t.level[v] + 2 * t.count[v] - 2 <= j && (t.count[v] >= 2 ==> t.level[v] >= 2)
  }

  /** How often a node can have been pushed once `j` nodes are visited. */
  function Cap(j: nat): nat {
    if j < 4 then 1 else j / 2
  }

  lemma PaidIsCapped(t: Tally, v: nat, j: nat)
    requires v < |t.level| == |t.count| && t.level[v] >= 0 && Paid(t, v, j)
    ensures t.count[v] <= Cap(j)
  {
  }

  /** Pushes of the nodes visited, when each had its cap. */
  function Spent(j: nat): nat {
    if j == 0 then 0 else Spent(j - 1) + Cap(j - 1)
  }

  /** Pushes of the unvisited ones among the first `k` nodes. */
  ghost function Open(count: seq<nat>, visited: seq<bool>, k: nat): nat
    requires k <= |count| == |visited|
  {
    if k == 0 then 0 else Open(count, visited, k - 1) + (if visited[k - 1] then 0 else count[k - 1])
  }

  lemma {:induction false} OpenMarked(count: seq<nat>, visited: seq<bool>, k: nat, u: nat)
    requires k <= |count| == |visited| && u < |count| && !visited[u]
    ensures Open(count, visited[u := true], k) == Open(count, visited, k) - (if u < k then count[u] else 0)
  {
    if k > 0 {
      OpenMarked(count, visited, k - 1, u);
    }
  }

  lemma {:induction false} OpenRaised(count: seq<nat>, visited: seq<bool>, k: nat, v: nat, c: nat)
    requires k <= |count| == |visited| && v < |count| && !visited[v]
    ensures Open(count[v := c], visited, k) == Open(count, visited, k) + (if v < k then c - count[v] else 0)
  {
    if k > 0 {
      OpenRaised(count, visited, k - 1, v, c);
    }
  }

  lemma {:induction false} OpenCapped(count: seq<nat>, visited: seq<bool>, k: nat, cap: nat)
    requires k <= |count| == |visited| && forall v :: 0 <= v < k && !visited[v] ==> count[v] <= cap
    ensures Open(count, visited, k) <= Unvisited(visited, k) * cap
  {
    if k > 0 {
      OpenCapped(count, visited, k - 1, cap);
      if !visited[k - 1] {
        assert Unvisited(visited, k) * cap == Unvisited(visited, k - 1) * cap + cap;
      }
    }
  }

  ghost predicate Affordable(n: nat, m: Machine, t: Tally, j: nat)
    requires |m.visited| == |t.count| == n
  {
    n == Unvisited(m.visited, n) + j && m.pushes <= Spent(j) + Open(t.count, m.visited, n)
  }

  /** Between two turns, `j` nodes being visited. */
  ghost predicate Waiting(n: nat, d: real, src: nat, m: Machine, t: Tally, j: nat) {
    && Tallied(n, d, m, t) && src < n && Affordable(n, m, t, j)
    && (forall v: nat :: v < n && !m.visited[v] && t.level[v] >= 0 ==> Paid(t, v, j) && (j > 0 ==> t.level[v] > 0))
    && (j == 0 ==> forall v: nat :: v < n && v != src ==> t.level[v] < 0)
  }

  /** While the edges of `u` are relaxed, `u` being node number `j` to be visited. */
  ghost predicate Spreading(n: nat, d: real, u: nat, m: Machine, t: Tally, j: nat) {
    Tallied(n, d, m, t) && Affordable(n, m, t, j) && u < n && m.visited[u] && 0 <= t.level[u] < j
    && Levelled(m.visited, t, u, j)
  }

  ghost predicate Levelled(visited: seq<bool>, t: Tally, u: nat, j: nat)
    requires u < |visited| == |t.level| == |t.count|
  {
    forall v: nat :: v < |visited| && !visited[v] && t.level[v] >= 0 ==>
      && t.level[v] > 0 && Paid(t, v, j)
      && (t.level[v] <= t.level[u] + 1 || (t.level[u] > 0 && Paid(t, v, j - 1)))
  }

  lemma {:induction false} WaitingAtFirst(nodes: seq<RrNode>, td: bool, src: nat, sink: nat, d: real, m: Machine)
    returns (t: Tally)
    requires src < |nodes| && sink < |nodes| && InRange(OutEdges(nodes)) && m == Turns(nodes, td, src, sink, 0)
    ensures Waiting(|nodes|, d, src, m, t, 0)
  {
    var n := |nodes|;
    t := Tally(seq(n, v => if v == src then 0 else -1), seq(n, v => if v == src then 1 else 0));
    NoneVisited(m.visited, n);
    OpenAtFirst(t.count, m.visited, n, src);
  }

  lemma {:induction false} OpenAtFirst(count: seq<nat>, visited: seq<bool>, k: nat, src: nat)
    requires k <= |count| == |visited| && src < |count|
    requires forall v :: 0 <= v < |count| ==> !visited[v] && count[v] == if v == src then 1 else 0
    ensures Open(count, visited, k) == if src < k then 1 else 0
  {
    if k > 0 {
      OpenAtFirst(count, visited, k - 1, src);
    }
  }

  /** A node comes out for the first time. */
  lemma {:induction false} Visiting(n: nat, d: real, src: nat, m: Machine, t: Tally, j: nat, next: Machine, u: nat)
    requires Waiting(n, d, src, m, t, j) && u < n && !m.visited[u] && t.level[u] >= 0
    requires next.cost == m.cost && next.visited == m.visited[u := true] && next.pushes == m.pushes
    ensures Spreading(n, d, u, next, t, j + 1)
  {
    MarkCounts(m.visited, n, u);
    OpenMarked(t.count, m.visited, n, u);
    PaidIsCapped(t, u, j);
  }

  /** Edge `u` -> `v` improves the label of `v`. */
  lemma {:induction false} OneRelaxed(n: nat, d: real, u: nat, v: nat, m: Machine, t: Tally, j: nat, next: Machine)
    returns (t': Tally)
    requires d > 0.0 && Spreading(n, d, u, m, t, j) && v < n && !m.visited[v]
    requires Improves(ValueOf(m.cost[u]) + d, m.cost[v])
    requires next.cost == m.cost[v := Finite(ValueOf(m.cost[u]) + d)] && next.visited == m.visited
    requires next.pushes == m.pushes + 1
    ensures Spreading(n, d, u, next, t', j)
  {
    t' := Tally(t.level[v := t.level[u] + 1], t.count[v := t.count[v] + 1]);
    LevelImproved(n, d, u, v, m, t);
    OpenRaised(t.count, m.visited, n, v, t.count[v] + 1);
    TallyRaised(n, d, v, m, t, next, t', t.level[u] + 1, ValueOf(m.cost[u]) + d);
    LevelRaised(m.visited, t, u, v, j, t');
  }

  lemma {:induction false} LevelRaised(visited: seq<bool>, t: Tally, u: nat, v: nat, j: nat, t': Tally)
    requires u < |visited| == |t.level| == |t.count| && v < |visited| && visited[u] && !visited[v]
    requires Levelled(visited, t, u, j) && 0 <= t.level[u] < j && (t.level[v] < 0 || t.level[u] + 1 < t.level[v])
    requires t.level[v] < 0 ==> t.count[v] == 0
    requires t' == Tally(t.level[v := t.level[u] + 1], t.count[v := t.count[v] + 1])
    ensures Levelled(visited, t', u, j)
  {
    forall w: nat | w < |visited| && !visited[w] && t'.level[w] >= 0 && w != v
      ensures && t'.level[w] > 0 && Paid(t', w, j)
              && (t'.level[w] <= t'.level[u] + 1 || (t'.level[u] > 0 && Paid(t', w, j - 1)))
    {
      assert Paid(t, w, j) && t'.level[w] == t.level[w] && t'.count[w] == t.count[w];
    }
  }

  lemma {:induction false} LevelImproved(n: nat, d: real, u: nat, v: nat, m: Machine, t: Tally)
    requires d > 0.0 && Tallied(n, d, m, t) && u < n && v < n && t.level[u] >= 0
    requires Improves(ValueOf(m.cost[u]) + d, m.cost[v])
    ensures ValueOf(m.cost[u]) + d == Legs(t.level[u] + 1, d)
    ensures t.level[v] < 0 || t.level[u] + 1 < t.level[v]
  {
    if 0 <= t.level[v] < t.level[u] + 1 {
      LegsGrow(t.level[v], t.level[u] + 1, d);
    }
  }

  lemma {:induction false} TallyRaised(n: nat, d: real, v: nat, m: Machine, t: Tally, next: Machine, t': Tally,
                                       l: nat, c: real)
    requires Tallied(n, d, m, t) && v < n && next.cost == m.cost[v := Finite(c)] && c == Legs(l, d)
    requires next.visited == m.visited && t' == Tally(t.level[v := l], t.count[v := t.count[v] + 1])
    ensures Tallied(n, d, next, t')
  {
  }

  lemma {:induction false} AllRelaxed(nodes: seq<RrNode>, td: bool, sink: nat, d: real, u: nat, i: nat, m: Machine,
                                      t: Tally, j: nat, r: Machine)
    returns (t': Tally)
    requires EvenDelays(nodes, td, d) && sink < |nodes| && InRange(OutEdges(nodes)) && Fitted(nodes, m)
    requires Spreading(|nodes|, d, u, m, t, j) && i <= |nodes[u].outEdges| && r == RelaxedFrom(nodes, td, sink, u, i, m)
    ensures Spreading(|nodes|, d, u, r, t', j)
    decreases |nodes[u].outEdges| - i
  {
    t' := t;
    if i < |nodes[u].outEdges| {
      assert nodes[u].outEdges[i] == OutEdges(nodes)[u][i];
      var v := nodes[u].outEdges[i];
      var next := Relaxed(nodes, td, sink, u, v, m);
      if !m.visited[v] && Improves(ValueOf(m.cost[u]) + d, m.cost[v]) {
        t' := OneRelaxed(|nodes|, d, u, v, m, t, j, next);
      }
      t' := AllRelaxed(nodes, td, sink, d, u, i + 1, next, t', j, r);
    }
  }

  lemma {:induction false} RelaxedIsWaiting(n: nat, d: real, src: nat, u: nat, m: Machine, t: Tally, j: nat)
    requires Spreading(n, d, u, m, t, j) && src < n
    ensures Waiting(n, d, src, m, t, j)
  {
  }

  /** Until the sink comes out, a tally can be kept. */
  lemma {:induction false} TallyKept(nodes: seq<RrNode>, td: bool, src: nat, sink: nat, d: real, k: nat, r: Machine)
    returns (t: Tally, j: nat)
    requires src < |nodes| && sink < |nodes| && InRange(OutEdges(nodes)) && EvenDelays(nodes, td, d)
    requires r == Turns(nodes, td, src, sink, k) && !r.visited[sink]
    ensures Waiting(|nodes|, d, src, r, t, j)
    decreases k
  {
    if k == 0 {
      t := WaitingAtFirst(nodes, td, src, sink, d, r);
      j := 0;
    } else {
      var m := Turns(nodes, td, src, sink, k - 1);
      VisitedBefore(nodes, td, src, sink, k);
      t, j := TallyKept(nodes, td, src, sink, d, k - 1, m);
      t, j := TallyOn(nodes, td, src, sink, d, k, m, t, j, r);
    }
  }

  lemma {:induction false} TallyOn(nodes: seq<RrNode>, td: bool, src: nat, sink: nat, d: real, k: nat, m: Machine,
                                   t: Tally, j: nat, r: Machine)
    returns (t': Tally, j': nat)
    requires src < |nodes| && sink < |nodes| && InRange(OutEdges(nodes)) && EvenDelays(nodes, td, d) && k > 0
    requires m == Turns(nodes, td, src, sink, k - 1) && r == Turns(nodes, td, src, sink, k)
    requires !m.visited[sink] && !r.visited[sink] && Waiting(|nodes|, d, src, m, t, j)
    ensures Waiting(|nodes|, d, src, r, t', j')
  {
    TurnCases(nodes, td, src, sink, k, m, r);
    HeapIsReached(nodes, td, src, sink, k - 1, m);
    t', j' := TallyTurn(nodes, td, src, sink, d, m, t, j, r);
  }

  lemma {:induction false} TallyTurn(nodes: seq<RrNode>, td: bool, src: nat, sink: nat, d: real, m: Machine, t: Tally,
                                     j: nat, r: Machine)
    returns (t': Tally, j': nat)
    requires sink < |nodes| && InRange(OutEdges(nodes)) && EvenDelays(nodes, td, d) && Fitted(nodes, m)
    requires Waiting(|nodes|, d, src, m, t, j) && Step(nodes, td, sink, m, r)
    requires m.heap != [] ==> m.heap[0].node != sink && m.cost[m.heap[0].node].Finite?
    ensures Waiting(|nodes|, d, src, r, t', j')
  {
    t', j' := t, j;
    if m.heap != [] {
      var u := m.heap[0].node;
      if m.visited[u] {
        assert m.visited[u := true] == m.visited;
      } else {
        Visiting(|nodes|, d, src, m, t, j, Taken(m), u);
        t' := AllRelaxed(nodes, td, sink, d, u, 0, Taken(m), t, j + 1, r);
        j' := j + 1;
        RelaxedIsWaiting(|nodes|, d, src, u, r, t', j');
      }
    }
  }

  lemma {:induction false} HeapIsReached(nodes: seq<RrNode>, td: bool, src: nat, sink: nat, k: nat, m: Machine)
    requires src < |nodes| && sink < |nodes| && InRange(OutEdges(nodes))
    requires m == Turns(nodes, td, src, sink, k) && !m.visited[sink]
    ensures m.heap != [] ==> m.heap[0].node < |nodes| && m.cost[m.heap[0].node].Finite?
  {
    var rank, visits := RunIsSane(nodes, td, src, sink, k);
    assert m.heap != [] ==> m.heap[0] in multiset(m.heap);
  }

  // ---------------------------------------------------------------- when the heap fits

  /** In the first three turns nothing is pushed twice, and on at most eight nodes never enough. */
  lemma {:induction false} SpentFits(n: nat, j: nat)
    requires j <= n
    ensures j <= 3 ==> Spent(j) + (n - j) * Cap(j) == n
    ensures n <= 8 ==> Spent(j) + (n - j) * Cap(j) <= n + j
  {
    assert Spent(1) == 1 && Spent(2) == 2;
    assert Spent(3) == 3 && Spent(4) == 4;
    assert Spent(5) == 6 && Spent(6) == 8;
    assert Spent(7) == 11 && Spent(8) == 14;
  }

  lemma {:induction false} WaitingFits(n: nat, e: nat, d: real, src: nat, k: nat, m: Machine, t: Tally, j: nat)
    requires Waiting(n, d, src, m, t, j) && Booked(n, k, m) && m.pushes <= 1 + e && (n <= 8 || e <= n + 3)
    ensures |m.heap| <= n
  {
    if k <= 3 || n <= 8 {
      forall v: nat | v < n && !m.visited[v] ensures t.count[v] <= Cap(j) {
        if t.level[v] >= 0 {
          PaidIsCapped(t, v, j);
        }
      }
      OpenCapped(t.count, m.visited, n, Cap(j));
      SpentFits(n, j);
    }
  }

  lemma {:induction false} EvenHasRoom(nodes: seq<RrNode>, td: bool, src: nat, sink: nat, d: real, e: nat)
    requires InRange(OutEdges(nodes)) && EdgeCount(nodes) <= e && src < |nodes| && sink < |nodes|
    requires EvenDelays(nodes, td, d)
    requires |nodes| <= 8 || e <= |nodes| + 3
    ensures HasRoom(nodes, td, src, sink)
  {
    forall k: nat | UnderWay(nodes, td, src, sink, k) ensures |Turns(nodes, td, src, sink, k).heap| <= |nodes| {
      EvenTurnFits(nodes, td, src, sink, d, e, k, Turns(nodes, td, src, sink, k));
    }
  }

  lemma {:induction false} EvenTurnFits(nodes: seq<RrNode>, td: bool, src: nat, sink: nat, d: real, e: nat, k: nat,
                                        r: Machine)
    requires InRange(OutEdges(nodes)) && EdgeCount(nodes) <= e && src < |nodes| && sink < |nodes|
    requires EvenDelays(nodes, td, d)
    requires UnderWay(nodes, td, src, sink, k) && (|nodes| <= 8 || e <= |nodes| + 3)
    requires r == Turns(nodes, td, src, sink, k)
    ensures |r.heap| <= |nodes|
  {
    var j, m := BeforeSink(nodes, td, src, sink, k, r);
    OpenTurnFits(nodes, td, src, sink, d, e, j, m);
  }

  lemma {:induction false} OpenTurnFits(nodes: seq<RrNode>, td: bool, src: nat, sink: nat, d: real, e: nat, k: nat,
                                        r: Machine)
    requires InRange(OutEdges(nodes)) && EdgeCount(nodes) <= e && src < |nodes| && sink < |nodes|
    requires EvenDelays(nodes, td, d)
    requires UnderWay(nodes, td, src, sink, k) && (|nodes| <= 8 || e <= |nodes| + 3)
    requires r == Turns(nodes, td, src, sink, k) && !r.visited[sink]
    ensures |r.heap| <= |nodes|
  {
    var t, j := TallyKept(nodes, td, src, sink, d, k, r);
    BookedRun(nodes, td, src, sink, k, r);
    PushesBounded(nodes, td, src, sink, k);
    WaitingFits(|nodes|, e, d, src, k, r, t, j);
  }

  /** The turn in which the sink comes out only shortens the heap. */
  lemma {:induction false} BeforeSink(nodes: seq<RrNode>, td: bool, src: nat, sink: nat, k: nat, r: Machine)
    returns (j: nat, m: Machine)
    requires src < |nodes| && sink < |nodes| && InRange(OutEdges(nodes)) && UnderWay(nodes, td, src, sink, k)
    requires r == Turns(nodes, td, src, sink, k)
    ensures UnderWay(nodes, td, src, sink, j) && m == Turns(nodes, td, src, sink, j)
    ensures !m.visited[sink] && |r.heap| <= |m.heap|
  {
    j, m := k, r;
    if r.visited[sink] {
      j := k - 1;
      m := TurnBefore(nodes, td, src, sink, k, r);
    }
  }

  // ---------------------------------------------------------------- a graph without room

  /**
   Node 0 drives 2 and 1; the way over 2 and 3 leads to all nodes from 4 on, the shorter one over 1 to five of them.
   */
  function TwoWays(n: nat): (r: seq<(nat, nat)>)
    requires n >= 9
    ensures |r| == n + 4 && EndsBelow(r, n)
  {
    Fork(n) + Star(3, 4, n) + Star(1, 4, 9)
  }

  function Fork(n: nat): (r: seq<(nat, nat)>)
    requires n >= 9
    ensures |r| == 3 && EndsBelow(r, n)
  {
    [(0, 2), (0, 1), (2, 3)]
  }

  /** A node as it is added, node 1 standing off; for timed routing every delay is set to 1. */
  function Placed(v: nat, td: bool): (node: RrNode)
    ensures node.outEdges == [] && node.inEdges == []
  {
    var node := NewNode(RrChanX, if v == 1 then 2 else 0, 0);
    if td then node.(r := 1.0, c := 1.0) else node
  }

  function AllPlaced(n: nat, td: bool): (r: seq<RrNode>)
    ensures |r| == n && Unwired(r) && forall v :: 0 <= v < n ==> r[v] == Placed(v, td)
  {
    seq(n, v requires 0 <= v => Placed(v, td))
  }

  /** Where they lead. */
  function Ends(n: nat, u: nat): seq<nat>
    requires n >= 9
  {
    if u == 0 then [2, 1] else if u == 1 then Range(4, 9)
    else if u == 2 then [3] else if u == 3 then Range(4, n) else []
  }

  lemma {:induction false} TwoWaysTargets(n: nat, u: nat)
    requires n >= 9
    ensures Targets(TwoWays(n), u) == Ends(n, u)
  {
    TargetsOfBoth(Fork(n) + Star(3, 4, n), Star(1, 4, 9), u);
    TargetsOfBoth(Fork(n), Star(3, 4, n), u);
    TargetsOfStar(3, 4, n, u);
    TargetsOfStar(1, 4, 9, u);
    ForkTargets(n, u);
    OnlyOne(Targets(Fork(n), u), Targets(Star(3, 4, n), u), Targets(Star(1, 4, 9), u), Targets(TwoWays(n), u));
  }

  lemma OnlyOne(a: seq<nat>, b: seq<nat>, c: seq<nat>, all: seq<nat>)
    requires all == a + b + c
    ensures b == [] && c == [] ==> all == a
    ensures a == [] && c == [] ==> all == b
    ensures a == [] && b == [] ==> all == c
  {
  }

  lemma {:induction false} ForkTargets(n: nat, u: nat)
    requires n >= 9
    ensures Targets(Fork(n), u) == if u == 0 then [2, 1] else if u == 2 then [3] else []
  {
    assert Fork(n)[..2] == [(0, 2), (0, 1)];
    assert [(0, 2), (0, 1)][..1] == [(0, 2)];
    assert [(0, 2)][..0] == [];
    assert Targets([(0, 2)], u) == if u == 0 then [2] else [];
    assert Targets([(0, 2), (0, 1)], u) == if u == 0 then [2, 1] else [];
  }

  /** The graph as the search sees it. */
  ghost predicate Forked(nodes: seq<RrNode>, td: bool) {
    && |nodes| >= 9 && InRange(OutEdges(nodes)) && EvenDelays(nodes, td, 1.0)
    && nodes[0].outEdges == [2, 1] && nodes[2].outEdges == [3]
    && nodes[3].outEdges == Range(4, |nodes|) && nodes[1].outEdges == Range(4, 9)
    && forall v :: 0 <= v < |nodes| ==> Manhattan(nodes[v], nodes[|nodes| - 1]) == if v == 1 then 2.0 else 0.0
  }

  lemma {:induction false} PlacedFields(n: nat, td: bool, nodes: seq<RrNode>)
    requires n >= 9 && nodes == Wired(AllPlaced(n, td), TwoWays(n))
    ensures EvenDelays(nodes, td, 1.0) && (!td ==> AsAdded(nodes))
    ensures forall v :: 0 <= v < n ==> Manhattan(nodes[v], nodes[n - 1]) == if v == 1 then 2.0 else 0.0
  {
    forall v: nat | v < n
      ensures nodes[v].x == Placed(v, td).x && nodes[v].y == Placed(v, td).y
      ensures nodes[v].r == Placed(v, td).r && nodes[v].c == Placed(v, td).c
    {
    }
  }

  lemma {:induction false} ForkedEdges(n: nat, td: bool, nodes: seq<RrNode>)
    requires n >= 9 && nodes == Wired(AllPlaced(n, td), TwoWays(n))
    ensures nodes[0].outEdges == [2, 1] && nodes[2].outEdges == [3]
    ensures nodes[3].outEdges == Range(4, n) && nodes[1].outEdges == Range(4, 9)
  {
    ForkedEdgesOf(n, td, nodes, 0);
    ForkedEdgesOf(n, td, nodes, 1);
    ForkedEdgesOf(n, td, nodes, 2);
    ForkedEdgesOf(n, td, nodes, 3);
  }

  lemma {:induction false} ForkedEdgesOf(n: nat, td: bool, nodes: seq<RrNode>, u: nat)
    requires n >= 9 && nodes == Wired(AllPlaced(n, td), TwoWays(n)) && u < n
    ensures nodes[u].outEdges == Ends(n, u)
  {
    WiredTargets(AllPlaced(n, td), TwoWays(n), nodes, u);
    TwoWaysTargets(n, u);
  }

  lemma {:induction false} PopOfTwo(a: Entry, b: Entry)
    ensures Popped([a, b]) == [b]
  {
    assert [a, b][..1] == [a] && Smallest([a], 0) == 0;
  }

  lemma {:induction false} PushOnOne(a: Entry, b: Entry)
    ensures Pushed([a], b) == if a.cost <= b.cost then [a, b] else [b, a]
  {
    assert [a] + [b] == [a, b] && Parent(1) == 0;
  }

  /** Node 0 comes out: 2 and 1 are pushed, 2 being nearer. */
  lemma {:induction false} ForkedFirst(nodes: seq<RrNode>, td: bool, m: Machine)
    requires Forked(nodes, td) && m == Turns(nodes, td, 0, |nodes| - 1, 1)
    ensures m.heap == [Entry(2, 1.0), Entry(1, 3.0)] && forall v :: 0 <= v < |nodes| ==> m.visited[v] == (v == 0)
    ensures m.cost[1] == m.cost[2] == Finite(1.0) && forall v :: 3 <= v < |nodes| ==> m.cost[v] == Infinite
  {
    var start := Turns(nodes, td, 0, |nodes| - 1, 0);
    assert start.heap[..0] == [] && Popped(start.heap) == [];
    assert m == Turn(nodes, td, |nodes| - 1, start);
    BothPushed(nodes, td, Taken(start), m);
  }

  lemma {:induction false} BothPushed(nodes: seq<RrNode>, td: bool, t: Machine, m: Machine)
    requires Forked(nodes, td) && Fitted(nodes, t) && m == RelaxedFrom(nodes, td, |nodes| - 1, 0, 0, t)
    requires t.heap == [] && forall v :: 0 <= v < |nodes| ==> t.visited[v] == (v == 0)
    requires forall v :: 0 <= v < |nodes| ==> t.cost[v] == if v == 0 then Finite(0.0) else Infinite
    ensures m.heap == [Entry(2, 1.0), Entry(1, 3.0)] && m.visited == t.visited
    ensures m.cost == t.cost[2 := Finite(1.0)][1 := Finite(1.0)]
  {
    var sink := |nodes| - 1;
    assert AllImprove(nodes, td, 0, 0, t);
    var t1 := OnePushed(nodes, td, sink, 0, 0, t);
    assert t1.heap == Pushed([], Entry(2, 1.0)) == [Entry(2, 1.0)];
    var t2 := OnePushed(nodes, td, sink, 0, 1, t1);
    PushOnOne(Entry(2, 1.0), Entry(1, 3.0));
    assert m == t2;
  }

  /** Node 2 comes out: 3 is pushed, and gets to the front. */
  lemma {:induction false} ForkedSecond(nodes: seq<RrNode>, td: bool, before: Machine, m: Machine)
    requires Forked(nodes, td) && Fitted(nodes, before) && m == Turn(nodes, td, |nodes| - 1, before)
    requires before.heap == [Entry(2, 1.0), Entry(1, 3.0)]
    requires forall v :: 0 <= v < |nodes| ==> before.visited[v] == (v == 0)
    requires before.cost[1] == before.cost[2] == Finite(1.0)
    requires forall v :: 3 <= v < |nodes| ==> before.cost[v] == Infinite
    ensures m.heap == [Entry(3, 2.0), Entry(1, 3.0)]
    ensures forall v :: 0 <= v < |nodes| ==> m.visited[v] == (v == 0 || v == 2)
    ensures m.cost[1] == Finite(1.0) && m.cost[3] == Finite(2.0)
    ensures forall v :: 4 <= v < |nodes| ==> m.cost[v] == Infinite
  {
    var sink := |nodes| - 1;
    PopOfTwo(Entry(2, 1.0), Entry(1, 3.0));
    var t := Taken(before);
    assert AllImprove(nodes, td, 2, 0, t);
    var t1 := OnePushed(nodes, td, sink, 2, 0, t);
    PushOnOne(Entry(1, 3.0), Entry(3, 2.0));
    assert m == RelaxedFrom(nodes, td, sink, 2, 0, t) == t1;
  }

  /** Node 3 comes out: all nodes from 4 on are pushed, behind node 1. */
  lemma {:induction false} ForkedThird(nodes: seq<RrNode>, td: bool, before: Machine, m: Machine)
    requires Forked(nodes, td) && Fitted(nodes, before) && m == Turn(nodes, td, |nodes| - 1, before)
    requires before.heap == [Entry(3, 2.0), Entry(1, 3.0)]
    requires forall v :: 0 <= v < |nodes| ==> before.visited[v] == (v == 0 || v == 2)
    requires before.cost[1] == Finite(1.0) && before.cost[3] == Finite(2.0)
    requires forall v :: 4 <= v < |nodes| ==> before.cost[v] == Infinite
    ensures |m.heap| == |nodes| - 3 && m.heap[0] == Entry(1, 3.0)
    ensures forall v :: 0 <= v < |nodes| ==> m.visited[v] == (v == 0 || v == 2 || v == 3)
    ensures m.cost[1] == Finite(1.0) && forall v :: 4 <= v < |nodes| ==> m.cost[v] == Finite(3.0)
  {
    PopOfTwo(Entry(3, 2.0), Entry(1, 3.0));
    AllBehind(nodes, td, Taken(before), m);
  }

  lemma {:induction false} AllBehind(nodes: seq<RrNode>, td: bool, t: Machine, m: Machine)
    requires Forked(nodes, td) && Fitted(nodes, t) && m == RelaxedFrom(nodes, td, |nodes| - 1, 3, 0, t)
    requires t.heap == [Entry(1, 3.0)] && t.cost[1] == Finite(1.0) && t.cost[3] == Finite(2.0)
    requires forall v :: 4 <= v < |nodes| ==> t.cost[v] == Infinite && !t.visited[v]
    ensures |m.heap| == |nodes| - 3 && m.heap[0] == Entry(1, 3.0) && m.visited == t.visited
    ensures m.cost[1] == Finite(1.0) && forall v :: 4 <= v < |nodes| ==> m.cost[v] == Finite(3.0)
  {
    var sink, out := |nodes| - 1, Range(4, |nodes|);
    forall k | 0 <= k < |out| ensures EdgeCost(nodes, td, t, 3, out[k]) == 3.0 && out[k] == 4 + k {
    }
    assert AllImprove(nodes, td, 3, 0, t);
    AllPushed(nodes, td, sink, 3, 0, t, m);
    RootStays(nodes, td, sink, 3, 0, t, m);
    assert out[0..] == out && 1 !in out;
    forall v: nat | 4 <= v < |nodes| ensures m.cost[v] == Finite(3.0) {
      assert out[v - 4] == v;
    }
  }

  /** Node 1 comes out: five of them are pushed once more. */
  lemma {:induction false} ForkedFourth(nodes: seq<RrNode>, td: bool, before: Machine, m: Machine)
    requires Forked(nodes, td) && Fitted(nodes, before) && m == Turn(nodes, td, |nodes| - 1, before)
    requires |before.heap| == |nodes| - 3 && before.heap[0] == Entry(1, 3.0)
    requires forall v :: 0 <= v < |nodes| ==> before.visited[v] == (v == 0 || v == 2 || v == 3)
    requires before.cost[1] == Finite(1.0) && forall v :: 4 <= v < |nodes| ==> before.cost[v] == Finite(3.0)
    ensures |m.heap| == |nodes| + 1
  {
    FiveAgain(nodes, td, Taken(before), m);
  }

  lemma {:induction false} FiveAgain(nodes: seq<RrNode>, td: bool, t: Machine, m: Machine)
    requires Forked(nodes, td) && Fitted(nodes, t) && m == RelaxedFrom(nodes, td, |nodes| - 1, 1, 0, t)
    requires t.cost[1] == Finite(1.0)
    requires forall v :: 4 <= v < |nodes| ==> t.cost[v] == Finite(3.0) && !t.visited[v]
    ensures |m.heap| == |t.heap| + 5
  {
    assert AllImprove(nodes, td, 1, 0, t);
    AllPushed(nodes, td, |nodes| - 1, 1, 0, t, m);
  }

  lemma {:induction false} ForkedUpToThird(nodes: seq<RrNode>, td: bool, m: Machine)
    requires Forked(nodes, td) && m == Turns(nodes, td, 0, |nodes| - 1, 3)
    ensures |m.heap| == |nodes| - 3 && m.heap[0] == Entry(1, 3.0)
    ensures forall v :: 0 <= v < |nodes| ==> m.visited[v] == (v == 0 || v == 2 || v == 3)
    ensures m.cost[1] == Finite(1.0) && forall v :: 4 <= v < |nodes| ==> m.cost[v] == Finite(3.0)
  {
    var one, two := Turns(nodes, td, 0, |nodes| - 1, 1), Turns(nodes, td, 0, |nodes| - 1, 2);
    ForkedFirst(nodes, td, one);
    ForkedSecond(nodes, td, one, two);
    ForkedThird(nodes, td, two, m);
  }

  lemma {:induction false} ForkedOutgrows(nodes: seq<RrNode>, td: bool, sink: nat)
    requires Forked(nodes, td) && sink == |nodes| - 1
    ensures !HasRoom(nodes, td, 0, sink)
  {
    var three, four := Turns(nodes, td, 0, sink, 3), Turns(nodes, td, 0, sink, 4);
    ForkedUpToThird(nodes, td, three);
    ForkedFourth(nodes, td, three, four);
    assert UnderWay(nodes, td, 0, sink, 4);
  }

  lemma {:induction false} TwoWaysOutgrow(n: nat, td: bool, nodes: seq<RrNode>)
    requires n >= 9 && nodes == Wired(AllPlaced(n, td), TwoWays(n)) && InRange(OutEdges(nodes))
    ensures !HasRoom(nodes, td, 0, n - 1)
  {
    PlacedFields(n, td, nodes);
    ForkedEdges(n, td, nodes);
    ForkedOutgrows(nodes, td, n - 1);
  }

  /**
   From nine nodes on, four edges more than nodes are enough to have more entries than nodes after four turns; in
   untimed routing the nodes of the graph are just as they are added.
   */
  lemma {:induction false} EvenOutgrows(n: nat, td: bool) returns (nodes: seq<RrNode>)
    requires n >= 9
    ensures Sized(nodes, n, n + 4) && EvenDelays(nodes, td, 1.0) && (!td ==> AsAdded(nodes))
    ensures !HasRoom(nodes, td, 0, n - 1)
  {
    nodes := Wired(AllPlaced(n, td), TwoWays(n));
    WiredIsSized(AllPlaced(n, td), TwoWays(n), nodes);
    PlacedFields(n, td, nodes);
    TwoWaysOutgrow(n, td, nodes);
  }

  /**
   With equal delays, one slot per node is enough for every search on every graph of `n` nodes and at most `e` edges
   exactly when there are at most eight nodes, or at most three edges more than nodes.
   */
  lemma {:induction false} AlwaysEvenRoomIff(td: bool, n: nat, e: nat)
    ensures AlwaysEvenRoom(td, n, e) <==> n <= 8 || e <= n + 3
  {
    if n <= 8 || e <= n + 3 {
      forall nodes, src: nat, sink: nat, d: real
        | Sized(nodes, n, e) && EvenDelays(nodes, td, d) && src < n && sink < n
        ensures HasRoom(nodes, td, src, sink)
      {
        EvenHasRoom(nodes, td, src, sink, d, e);
      }
    } else {
      var nodes := EvenOutgrows(n, td);
      SizedMore(nodes, n, n + 4, e);
      assert EvenDelays(nodes, td, 1.0) && !HasRoom(nodes, td, 0, n - 1);
    }
  }
}
