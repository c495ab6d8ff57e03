/**
 How large the router's heap grows. The code gives it one slot per node. Whether that is
 enough is told from the number of nodes and edges alone, for every search on every graph
 of that size, and turn by turn. Within a turn the heap is largest at its end.
 */
module AStarRoom {
  import opened GraphSearch
  import opened RoutingFabric
  import opened AStarHeap
  import opened AStar

  /** The code makes turn number `k`: the sink has not come out before it. */
  ghost predicate UnderWay(nodes: seq<RrNode>, td: bool, src: nat, sink: nat, k: nat)
    requires src < |nodes| && sink < |nodes| && InRange(OutEdges(nodes))
  {
    k == 0 || !Turns(nodes, td, src, sink, k - 1).visited[sink]
  }

  /** After no turn are there more entries in the heap than nodes. */
  ghost predicate HasRoom(nodes: seq<RrNode>, td: bool, src: nat, sink: nat)
    requires src < |nodes| && sink < |nodes| && InRange(OutEdges(nodes))
  {
    forall k: nat {:trigger UnderWay(nodes, td, src, sink, k)} ::
      UnderWay(nodes, td, src, sink, k) ==> |Turns(nodes, td, src, sink, k).heap| <= |nodes|
  }

  ghost predicate Sized(nodes: seq<RrNode>, n: nat, e: nat) {
    Mirrored(nodes) && InRange(OutEdges(nodes)) && |nodes| == n && EdgeCount(nodes) <= e
  }

  /** Every search on every graph of `n` nodes and at most `e` edges, whatever its delays, has room. */
  ghost predicate AlwaysRoom(n: nat, e: nat) {
    forall nodes, td, src: nat, sink: nat ::
      Sized(nodes, n, e) && src < n && sink < n ==> HasRoom(nodes, td, src, sink)
  }

  // ---------------------------------------------------------------- one turn

  /** What a turn of the search may be. */
  ghost predicate Step(nodes: seq<RrNode>, td: bool, sink: nat, m: Machine, t: Machine)
    requires Fitted(nodes, m) && sink < |nodes| && InRange(OutEdges(nodes))
  {
    if m.heap == [] then t == m
    else
      var u := m.heap[0].node;
      u < |nodes| && t == if m.visited[u] || u == sink then Taken(m)
                          else RelaxedFrom(nodes, td, sink, u, 0, Taken(m))
  }

  lemma {:induction false} TurnCases(nodes: seq<RrNode>, td: bool, src: nat, sink: nat, k: nat, m: Machine, t: Machine)
    requires src < |nodes| && sink < |nodes| && InRange(OutEdges(nodes)) && k > 0 && UnderWay(nodes, td, src, sink, k)
    requires m == Turns(nodes, td, src, sink, k - 1) && t == Turns(nodes, td, src, sink, k)
    ensures Step(nodes, td, sink, m, t)
  {
    if m.heap != [] {
      NextTurn(nodes, td, src, sink, k - 1, m);
    }
  }

  lemma {:induction false} WasUnderWay(nodes: seq<RrNode>, td: bool, src: nat, sink: nat, k: nat)
    requires src < |nodes| && sink < |nodes| && InRange(OutEdges(nodes)) && k > 0 && UnderWay(nodes, td, src, sink, k)
    ensures UnderWay(nodes, td, src, sink, k - 1)
  {
    if k > 1 {
      VisitedBefore(nodes, td, src, sink, k - 1);
    }
  }

  /** The turn before one the code makes. */
  lemma {:induction false} TurnBefore(nodes: seq<RrNode>, td: bool, src: nat, sink: nat, k: nat, t: Machine)
    returns (m: Machine)
    requires src < |nodes| && sink < |nodes| && InRange(OutEdges(nodes)) && k > 0 && UnderWay(nodes, td, src, sink, k)
    requires t == Turns(nodes, td, src, sink, k)
    ensures m == Turns(nodes, td, src, sink, k - 1) && !m.visited[sink] && UnderWay(nodes, td, src, sink, k - 1)
    ensures Step(nodes, td, sink, m, t)
  {
    m := Turns(nodes, td, src, sink, k - 1);
    WasUnderWay(nodes, td, src, sink, k);
    TurnCases(nodes, td, src, sink, k, m, t);
  }

  /** The nodes of the set are unvisited, and their labels are no higher than an edge from `u` would make them. */
  ghost predicate Settled(nodes: seq<RrNode>, td: bool, u: nat, m: Machine, done: set<nat>)
    requires Fitted(nodes, m) && u < |nodes|
  {
    forall v :: v in done ==>
      v < |nodes| && !m.visited[v] && !Improves(ValueOf(m.cost[u]) + EdgeDelay(nodes, td, u, v), m.cost[v])
  }

  lemma {:induction false} UnvisitedHolds(visited: seq<bool>, n: nat, done: set<nat>)
    requires n <= |visited| && forall v :: v in done ==> v < n && !visited[v]
    ensures |done| <= Unvisited(visited, n)
  {
    if n > 0 {
      var rest := done - {n - 1};
      UnvisitedHolds(visited, n - 1, rest);
      assert n - 1 in done ==> done == rest + {n - 1};
      assert n - 1 !in done ==> done == rest;
    } else {
      assert done == {};
    }
  }

  /** Relaxing the edges of `u` pushes each unvisited node at most once: a repeated edge improves nothing. */
  lemma {:induction false} RelaxPushes(nodes: seq<RrNode>, td: bool, sink: nat, u: nat, i: nat, m: Machine, r: Machine,
                                       done: set<nat>)
    requires Fitted(nodes, m) && u < |nodes| && sink < |nodes| && InRange(OutEdges(nodes)) && i <= |nodes[u].outEdges|
    requires m.visited[u] && r == RelaxedFrom(nodes, td, sink, u, i, m) && Settled(nodes, td, u, m, done)
    ensures |r.heap| - |m.heap| == r.pushes - m.pushes
    ensures r.pushes + |done| <= m.pushes + Unvisited(m.visited, |nodes|)
    decreases |nodes[u].outEdges| - i
  {
    if i == |nodes[u].outEdges| {
      UnvisitedHolds(m.visited, |nodes|, done);
    } else {
      assert nodes[u].outEdges[i] == OutEdges(nodes)[u][i];
      var v := nodes[u].outEdges[i];
      var next := Relaxed(nodes, td, sink, u, v, m);
      if next == m {
        RelaxPushes(nodes, td, sink, u, i + 1, m, r, done);
      } else {
        assert v !in done && next.pushes == m.pushes + 1 && |next.heap| == |m.heap| + 1;
        assert Settled(nodes, td, u, next, done + {v});
        RelaxPushes(nodes, td, sink, u, i + 1, next, r, done + {v});
      }
    }
  }

  // ---------------------------------------------------------------- a whole run

  function Pairs(n: nat): nat {
    if n == 0 then 0 else Pairs(n - 1) + n - 1
  }

  /** Each turn takes one entry out, visits at most one node, and pushes no node that was visited before. */
  ghost predicate Booked(n: nat, k: nat, m: Machine)
    requires |m.visited| == n
  {
    && (m.heap == [] || |m.heap| + k == m.pushes)
    && n <= Unvisited(m.visited, n) + k && Unvisited(m.visited, n) <= n
    && m.pushes + Pairs(Unvisited(m.visited, n)) <= 1 + Pairs(n)
  }

  lemma {:induction false} NoneVisited(visited: seq<bool>, n: nat)
    requires n <= |visited| && forall v :: 0 <= v < n ==> !visited[v]
    ensures Unvisited(visited, n) == n
  {
    if n > 0 {
      NoneVisited(visited, n - 1);
    }
  }

  /** A turn that takes out an entry for nothing, or the sink. */
  lemma {:induction false} BookedTaken(n: nat, k: nat, m: Machine, t: Machine)
    requires |m.visited| == n && Booked(n, k, m) && m.heap != [] && m.heap[0].node < n && t == Taken(m)
    ensures Booked(n, k + 1, t)
  {
    var u := m.heap[0].node;
    if m.visited[u] {
      assert m.visited[u := true] == m.visited;
    } else {
      MarkCounts(m.visited, n, u);
    }
  }

  lemma {:induction false} BookedTurn(nodes: seq<RrNode>, td: bool, sink: nat, k: nat, m: Machine, t: Machine)
    requires Fitted(nodes, m) && sink < |nodes| && InRange(OutEdges(nodes)) && Booked(|nodes|, k, m)
    requires m.heap != [] && m.heap[0].node < |nodes| && !m.visited[m.heap[0].node]
    requires t == RelaxedFrom(nodes, td, sink, m.heap[0].node, 0, Taken(m))
    ensures Booked(|nodes|, k + 1, t)
  {
    var u := m.heap[0].node;
    MarkCounts(m.visited, |nodes|, u);
    RelaxPushes(nodes, td, sink, u, 0, Taken(m), t, {});
  }

  lemma {:induction false} BookedAtFirst(nodes: seq<RrNode>, td: bool, src: nat, sink: nat, t: Machine)
    requires src < |nodes| && sink < |nodes| && InRange(OutEdges(nodes)) && t == Turns(nodes, td, src, sink, 0)
    ensures Booked(|nodes|, 0, t)
  {
    NoneVisited(t.visited, |nodes|);
  }

  lemma {:induction false} BookedRun(nodes: seq<RrNode>, td: bool, src: nat, sink: nat, k: nat, t: Machine)
    requires src < |nodes| && sink < |nodes| && InRange(OutEdges(nodes)) && UnderWay(nodes, td, src, sink, k)
    requires t == Turns(nodes, td, src, sink, k)
    ensures Booked(|nodes|, k, t)
    decreases k
  {
    if k == 0 {
      BookedAtFirst(nodes, td, src, sink, t);
    } else {
      WasUnderWay(nodes, td, src, sink, k);
      BookedRun(nodes, td, src, sink, k - 1, Turns(nodes, td, src, sink, k - 1));
      BookedOn(nodes, td, src, sink, k, Turns(nodes, td, src, sink, k - 1), t);
    }
  }

  lemma {:induction false} BookedOn(nodes: seq<RrNode>, td: bool, src: nat, sink: nat, k: nat, m: Machine, t: Machine)
    requires src < |nodes| && sink < |nodes| && InRange(OutEdges(nodes)) && k > 0 && UnderWay(nodes, td, src, sink, k)
    requires m == Turns(nodes, td, src, sink, k - 1) && t == Turns(nodes, td, src, sink, k)
    requires Booked(|nodes|, k - 1, m)
    ensures Booked(|nodes|, k, t)
  {
    TurnCases(nodes, td, src, sink, k, m, t);
    BookedNext(nodes, td, sink, k, m, t);
  }

  lemma {:induction false} BookedNext(nodes: seq<RrNode>, td: bool, sink: nat, k: nat, m: Machine, t: Machine)
    requires Fitted(nodes, m) && sink < |nodes| && InRange(OutEdges(nodes)) && k > 0 && Booked(|nodes|, k - 1, m)
    requires Step(nodes, td, sink, m, t)
    ensures Booked(|nodes|, k, t)
  {
    if m.heap != [] {
      var u := m.heap[0].node;
      if m.visited[u] || u == sink {
        BookedTaken(|nodes|, k - 1, m, t);
      } else {
        BookedTurn(nodes, td, sink, k - 1, m, t);
      }
    }
  }

  /** No more is pushed than the source and each edge once, also when the sink has just come out. */
  lemma {:induction false} PushesWithin(nodes: seq<RrNode>, td: bool, src: nat, sink: nat, k: nat, t: Machine)
    requires src < |nodes| && sink < |nodes| && InRange(OutEdges(nodes)) && UnderWay(nodes, td, src, sink, k)
    requires t == Turns(nodes, td, src, sink, k)
    ensures t.pushes <= 1 + EdgeCount(nodes)
  {
    if t.visited[sink] && k > 0 {
      var m := Turns(nodes, td, src, sink, k - 1);
      PushesBounded(nodes, td, src, sink, k - 1);
      TurnCases(nodes, td, src, sink, k, m, t);
    } else {
      PushesBounded(nodes, td, src, sink, k);
    }
  }

  /** What the books leave in the heap. */
  lemma {:induction false} BookedFits(n: nat, e: nat, k: nat, m: Machine)
    requires |m.visited| == n > 0 && Booked(n, k, m) && m.pushes <= 1 + e && (n <= 4 || e <= n + 1)
    ensures |m.heap| <= n
  {
    var left := Unvisited(m.visited, n);
    if n <= 4 || k <= 1 {
      PairsLeft(n, left);
    }
  }

  /** Once `n - left` of the nodes are visited, this many entries have been pushed at most. */
  lemma {:induction false} PairsLeft(n: nat, left: nat)
    requires left <= n
    ensures n <= left + 1 ==> Pairs(n) <= Pairs(left) + n - 1 || n == 0
    ensures n <= 4 ==> 1 + Pairs(n) <= Pairs(left) + n + (n - left) || n == 0
  {
    assert Pairs(1) == 0 && Pairs(2) == 1;
    assert Pairs(3) == 3;
    assert Pairs(4) == 6;
  }

  // ---------------------------------------------------------------- graphs edge by edge

  /** The nodes with these edges added in order. */
  function Wired(nodes: seq<RrNode>, edges: seq<(nat, nat)>): (r: seq<RrNode>)
    requires EndsBelow(edges, |nodes|)
    ensures |r| == |nodes|
    ensures forall v :: 0 <= v < |nodes| ==>
              r[v].x == nodes[v].x && r[v].y == nodes[v].y && r[v].r == nodes[v].r && r[v].c == nodes[v].c
  {
    if edges == [] then nodes
    else
      var e := edges[|edges| - 1];
      WithEdge(Wired(nodes, edges[..|edges| - 1]), e.0, e.1)
  }

  /** Where the edges out of `u` lead, in order. */
  function Targets(edges: seq<(nat, nat)>, u: nat): seq<nat> {
    if edges == [] then []
    else
      var e := edges[|edges| - 1];
      Targets(edges[..|edges| - 1], u) + (if e.0 == u then [e.1] else [])
  }

  ghost predicate Unwired(nodes: seq<RrNode>) {
    forall v :: 0 <= v < |nodes| ==> nodes[v].outEdges == [] && nodes[v].inEdges == []
  }

  lemma {:induction false} UnwiredCounts(nodes: seq<RrNode>)
    requires Unwired(nodes)
    ensures EdgeCount(nodes) == 0
  {
    if nodes != [] {
      UnwiredCounts(nodes[..|nodes| - 1]);
    }
  }

  lemma {:induction false} OneEdgeMore(nodes: seq<RrNode>, from: nat, to: nat, k: nat)
    requires from < |nodes| && to < |nodes| && k <= |nodes|
    ensures EdgeCount(WithEdge(nodes, from, to)[..k]) == EdgeCount(nodes[..k]) + (if from < k then 1 else 0)
  {
    var r := WithEdge(nodes, from, to);
    if k > 0 {
      OneEdgeMore(nodes, from, to, k - 1);
      assert |r[k - 1].outEdges| == |nodes[k - 1].outEdges| + (if from == k - 1 then 1 else 0);
      CountOfNext(r, k);
      CountOfNext(nodes, k);
    }
  }

  lemma {:induction false} CountOfNext(nodes: seq<RrNode>, k: nat)
    requires 0 < k <= |nodes|
    ensures EdgeCount(nodes[..k]) == EdgeCount(nodes[..k - 1]) + |nodes[k - 1].outEdges|
  {
    assert nodes[..k][..k - 1] == nodes[..k - 1];
  }

  ghost predicate EndsBelow(edges: seq<(nat, nat)>, n: nat) {
    forall i :: 0 <= i < |edges| ==> edges[i].0 < n && edges[i].1 < n
  }

  lemma {:induction false} WiredMirrored(nodes: seq<RrNode>, edges: seq<(nat, nat)>, r: seq<RrNode>)
    requires Unwired(nodes) && EndsBelow(edges, |nodes|) && r == Wired(nodes, edges)
    ensures Mirrored(r)
    decreases |edges|
  {
    if edges != [] {
      var front, e := edges[..|edges| - 1], edges[|edges| - 1];
      var before := Wired(nodes, front);
      WiredMirrored(nodes, front, before);
      WithEdgeMirrored(before, e.0, e.1);
      assert r == WithEdge(before, e.0, e.1);
    } else {
      UnwiredMirrored(r);
    }
  }

  lemma {:induction false} UnwiredMirrored(nodes: seq<RrNode>)
    requires Unwired(nodes)
    ensures Mirrored(nodes)
  {
  }

  lemma {:induction false} WiredCount(nodes: seq<RrNode>, edges: seq<(nat, nat)>, r: seq<RrNode>)
    requires Unwired(nodes) && EndsBelow(edges, |nodes|) && r == Wired(nodes, edges)
    ensures EdgeCount(r) == |edges|
    decreases |edges|
  {
    if edges == [] {
      UnwiredCounts(nodes);
    } else {
      var front, e := edges[..|edges| - 1], edges[|edges| - 1];
      var before := Wired(nodes, front);
      WiredCount(nodes, front, before);
      OneEdgeMore(before, e.0, e.1, |nodes|);
      assert r == WithEdge(before, e.0, e.1) && r[..|nodes|] == r && before[..|nodes|] == before;
    }
  }

  /** What the edge list says of the graph. */
  lemma {:induction false} WiredTargets(nodes: seq<RrNode>, edges: seq<(nat, nat)>, r: seq<RrNode>, u: nat)
    requires Unwired(nodes) && EndsBelow(edges, |nodes|) && r == Wired(nodes, edges) && u < |nodes|
    ensures r[u].outEdges == Targets(edges, u)
    decreases |edges|
  {
    if edges != [] {
      var front, e := edges[..|edges| - 1], edges[|edges| - 1];
      var before := Wired(nodes, front);
      WiredTargets(nodes, front, before, u);
      assert r == WithEdge(before, e.0, e.1);
    }
  }

  lemma {:induction false} WiredIsSized(nodes: seq<RrNode>, edges: seq<(nat, nat)>, r: seq<RrNode>)
    requires Unwired(nodes) && EndsBelow(edges, |nodes|) && r == Wired(nodes, edges)
    ensures Sized(r, |nodes|, |edges|)
  {
    WiredMirrored(nodes, edges, r);
    WiredCount(nodes, edges, r);
    MirroredInRange(r);
  }

  lemma {:induction false} SizedMore(nodes: seq<RrNode>, n: nat, e: nat, more: nat)
    requires Sized(nodes, n, e) && e <= more
    ensures Sized(nodes, n, more)
  {
  }

  /** Edges from `u` to the nodes from `lo` on, below `hi`. */
  function Star(u: nat, lo: nat, hi: nat): (r: seq<(nat, nat)>)
    requires lo <= hi
    ensures |r| == hi - lo && forall i :: 0 <= i < |r| ==> r[i] == (u, lo + i)
  {
    seq(hi - lo, i requires 0 <= i => (u, lo + i))
  }

  function Range(lo: nat, hi: nat): (r: seq<nat>)
    requires lo <= hi
    ensures |r| == hi - lo && (forall i :: 0 <= i < |r| ==> r[i] == lo + i) && Simple(r)
  {
    seq(hi - lo, i requires 0 <= i => lo + i)
  }

  lemma {:induction false} TargetsOfStar(u: nat, lo: nat, hi: nat, v: nat)
    requires lo <= hi
    ensures Targets(Star(u, lo, hi), v) == if u == v then Range(lo, hi) else []
    decreases hi
  {
    if lo < hi {
      var star := Star(u, lo, hi);
      assert star[..|star| - 1] == Star(u, lo, hi - 1) && star[|star| - 1] == (u, hi - 1);
      TargetsOfStar(u, lo, hi - 1, v);
      assert Range(lo, hi) == Range(lo, hi - 1) + [hi - 1];
    }
  }

  lemma {:induction false} TargetsOfBoth(a: seq<(nat, nat)>, b: seq<(nat, nat)>, u: nat)
    ensures Targets(a + b, u) == Targets(a, u) + Targets(b, u)
  {
    if b == [] {
      assert a + b == a;
    } else {
      var n := |b| - 1;
      TargetsOfBoth(a, b[..n], u);
      assert (a + b)[..|a| + n] == a + b[..n];
    }
  }

  // ---------------------------------------------------------------- a graph without room

  function EdgeCost(nodes: seq<RrNode>, td: bool, m: Machine, u: nat, v: nat): real
    requires Fitted(nodes, m) && u < |nodes| && v < |nodes|
  {
    ValueOf(m.cost[u]) + EdgeDelay(nodes, td, u, v)
  }

  /** The edges of `u` from position `i` on lead to different unvisited nodes, and all of them get cheaper. */
  ghost predicate AllImprove(nodes: seq<RrNode>, td: bool, u: nat, i: nat, m: Machine)
    requires Fitted(nodes, m) && u < |nodes|
  {
    var out := nodes[u].outEdges;
    && (forall j, k :: i <= j < k < |out| ==> out[j] != out[k])
    && (forall k :: i <= k < |out| ==> out[k] < |nodes| && out[k] != u && !m.visited[out[k]])
    && (forall k :: i <= k < |out| ==> Improves(EdgeCost(nodes, td, m, u, out[k]), m.cost[out[k]]))
  }

  /** Edge number `i` of them is taken, and the others still improve. */
  lemma {:induction false} OnePushed(nodes: seq<RrNode>, td: bool, sink: nat, u: nat, i: nat, m: Machine)
    returns (next: Machine)
    requires Fitted(nodes, m) && u < |nodes| && sink < |nodes| && InRange(OutEdges(nodes)) && i < |nodes[u].outEdges|
    requires AllImprove(nodes, td, u, i, m)
    ensures Fitted(nodes, next) && AllImprove(nodes, td, u, i + 1, next)
    ensures RelaxedFrom(nodes, td, sink, u, i, m) == RelaxedFrom(nodes, td, sink, u, i + 1, next)
    ensures |next.heap| == |m.heap| + 1 && next.cost[u] == m.cost[u] && next.visited == m.visited
    ensures var v := nodes[u].outEdges[i];
            next.heap == Pushed(m.heap, Entry(v, EdgeCost(nodes, td, m, u, v) + Manhattan(nodes[v], nodes[sink])))
    ensures next.cost == m.cost[nodes[u].outEdges[i] := Finite(EdgeCost(nodes, td, m, u, nodes[u].outEdges[i]))]
  {
    var v := nodes[u].outEdges[i];
    var c := EdgeCost(nodes, td, m, u, v);
    var e := Entry(v, c + Manhattan(nodes[v], nodes[sink]));
    next := Machine(m.cost[v := Finite(c)], m.prev[v := u], m.visited, Pushed(m.heap, e), m.pushes + 1);
    assert next == Relaxed(nodes, td, sink, u, v, m);
  }

  /** Then each of them is relabelled and pushed. */
  lemma {:induction false} AllPushed(nodes: seq<RrNode>, td: bool, sink: nat, u: nat, i: nat, m: Machine, r: Machine)
    requires Fitted(nodes, m) && u < |nodes| && sink < |nodes| && InRange(OutEdges(nodes)) && i <= |nodes[u].outEdges|
    requires AllImprove(nodes, td, u, i, m) && r == RelaxedFrom(nodes, td, sink, u, i, m)
    ensures |r.heap| == |m.heap| + |nodes[u].outEdges| - i
    ensures forall v :: 0 <= v < |nodes| ==>
              r.cost[v] == if v in nodes[u].outEdges[i..] then Finite(EdgeCost(nodes, td, m, u, v)) else m.cost[v]
    decreases |nodes[u].outEdges| - i
  {
    var out := nodes[u].outEdges;
    if i < |out| {
      var next := OnePushed(nodes, td, sink, u, i, m);
      AllPushed(nodes, td, sink, u, i + 1, next, r);
      forall v | 0 <= v < |nodes|
        ensures r.cost[v] == if v in out[i..] then Finite(EdgeCost(nodes, td, m, u, v)) else m.cost[v]
      {
        assert v in out[i..] <==> v == out[i] || v in out[i + 1..];
        assert EdgeCost(nodes, td, next, u, v) == EdgeCost(nodes, td, m, u, v);
      }
    }
  }

  /** A root that costs no more than any of them stays in place. */
  lemma {:induction false} RootStays(nodes: seq<RrNode>, td: bool, sink: nat, u: nat, i: nat, m: Machine, r: Machine)
    requires Fitted(nodes, m) && u < |nodes| && sink < |nodes| && InRange(OutEdges(nodes)) && i <= |nodes[u].outEdges|
    requires r == RelaxedFrom(nodes, td, sink, u, i, m) && m.heap != []
    requires forall k :: i <= k < |nodes[u].outEdges| ==>
               var v := nodes[u].outEdges[k]; v < |nodes| && v != u && m.heap[0].cost <= EdgeCost(nodes, td, m, u, v)
    ensures r.heap != [] && r.heap[0] == m.heap[0]
    decreases |nodes[u].outEdges| - i
  {
    if i < |nodes[u].outEdges| {
      var v := nodes[u].outEdges[i];
      var next := Relaxed(nodes, td, sink, u, v, m);
      PushedRoot(m.heap, Entry(v, EdgeCost(nodes, td, m, u, v) + Manhattan(nodes[v], nodes[sink])));
      assert next.heap != [] && next.heap[0] == m.heap[0] && next.cost[u] == m.cost[u];
      RootStays(nodes, td, sink, u, i + 1, next, r);
    }
  }

  /** The first successor of the source is the nearest, and every edge of it gives its end a cheaper label. */
  ghost predicate Detour(nodes: seq<RrNode>, td: bool, src: nat, sink: nat, near: nat)
    requires src < |nodes| && sink < |nodes| && near < |nodes| && InRange(OutEdges(nodes))
  {
    var out := nodes[src].outEdges;
    && out != [] && out[0] == near && near != src && near != sink && src != sink
    && Simple(out) && Simple(nodes[near].outEdges) && src !in out
    && src !in nodes[near].outEdges && near !in nodes[near].outEdges
    && (forall v :: 0 <= v < |nodes| && v in out && v != near ==>
          EdgeDelay(nodes, td, src, near) + Manhattan(nodes[near], nodes[sink]) <= EdgeDelay(nodes, td, src, v))
    && (forall v :: 0 <= v < |nodes| && v in out && v in nodes[near].outEdges ==>
          EdgeDelay(nodes, td, src, near) + EdgeDelay(nodes, td, near, v) < EdgeDelay(nodes, td, src, v))
  }

  /** The machine as the first turn relaxes the edges of the source. */
  lemma {:induction false} DetourStart(nodes: seq<RrNode>, td: bool, src: nat, sink: nat, near: nat)
    returns (t: Machine)
    requires src < |nodes| && sink < |nodes| && near < |nodes| && InRange(OutEdges(nodes))
    requires Detour(nodes, td, src, sink, near)
    ensures Fitted(nodes, t) && t.heap == [] && AllImprove(nodes, td, src, 0, t)
    ensures Turns(nodes, td, src, sink, 1) == RelaxedFrom(nodes, td, sink, src, 0, t)
    ensures t.visited == seq(|nodes|, v => v == src)
    ensures t.cost == seq(|nodes|, v => if v == src then Finite(0.0) else Infinite)
  {
    var start := Turns(nodes, td, src, sink, 0);
    t := Taken(start);
    assert start.heap[..0] == [] && Popped(start.heap) == [];
    assert Turns(nodes, td, src, sink, 1) == Turn(nodes, td, sink, start);
    var out := nodes[src].outEdges;
    forall k | 0 <= k < |out| ensures out[k] < |nodes| && out[k] != src {
      assert OutEdges(nodes)[src][k] == out[k];
    }
  }

  /** The nearest node is the first in the heap after the first turn. */
  lemma {:induction false} NearestFirst(nodes: seq<RrNode>, td: bool, src: nat, sink: nat, near: nat, t: Machine,
                                        r: Machine)
    requires src < |nodes| && sink < |nodes| && near < |nodes| && InRange(OutEdges(nodes)) && Fitted(nodes, t)
    requires Detour(nodes, td, src, sink, near) && r == RelaxedFrom(nodes, td, sink, src, 0, t)
    requires AllImprove(nodes, td, src, 0, t) && t.heap == [] && t.cost[src] == Finite(0.0)
    ensures r.heap != [] && r.heap[0].node == near
  {
    var e := Entry(near, EdgeDelay(nodes, td, src, near) + Manhattan(nodes[near], nodes[sink]));
    var next := Relaxed(nodes, td, sink, src, near, t);
    assert next.heap == Pushed([], e) == [e];
    RootStays(nodes, td, sink, src, 1, next, r);
  }

  /** The first turn labels and pushes the successors of the source; the nearest is the next to come out. */
  lemma {:induction false} DetourFirst(nodes: seq<RrNode>, td: bool, src: nat, sink: nat, near: nat, first: Machine)
    requires src < |nodes| && sink < |nodes| && near < |nodes| && InRange(OutEdges(nodes))
    requires Detour(nodes, td, src, sink, near) && first == Turns(nodes, td, src, sink, 1)
    ensures |first.heap| == |nodes[src].outEdges| && first.heap[0].node == near
    ensures forall v :: 0 <= v < |nodes| ==> first.visited[v] == (v == src)
    ensures forall v :: 0 <= v < |nodes| && v != src ==>
              first.cost[v] == if v in nodes[src].outEdges then Finite(EdgeDelay(nodes, td, src, v)) else Infinite
  {
    var t := DetourStart(nodes, td, src, sink, near);
    AllPushed(nodes, td, sink, src, 0, t, first);
    NearestFirst(nodes, td, src, sink, near, t, first);
    assert nodes[src].outEdges[0..] == nodes[src].outEdges;
  }

  /** The second turn takes the nearest out and pushes its successors, most of them once more. */
  lemma {:induction false} DetourSecond(nodes: seq<RrNode>, td: bool, src: nat, sink: nat, near: nat)
    requires src < |nodes| && sink < |nodes| && near < |nodes| && InRange(OutEdges(nodes))
    requires Detour(nodes, td, src, sink, near)
    ensures |Turns(nodes, td, src, sink, 2).heap| == |nodes[src].outEdges| - 1 + |nodes[near].outEdges|
  {
    var first, second := Turns(nodes, td, src, sink, 1), Turns(nodes, td, src, sink, 2);
    DetourFirst(nodes, td, src, sink, near, first);
    var t, out := Taken(first), nodes[near].outEdges;
    forall k | 0 <= k < |out|
      ensures out[k] < |nodes| && out[k] != src && out[k] != near
      ensures Improves(EdgeCost(nodes, td, t, near, out[k]), t.cost[out[k]])
    {
      assert OutEdges(nodes)[near][k] == out[k] && out[k] in out;
    }
    assert second == Turn(nodes, td, sink, first) == RelaxedFrom(nodes, td, sink, near, 0, t);
    AllPushed(nodes, td, sink, near, 0, t, second);
  }

  /** Node 0 drives all others, and node 1, next to it, drives nodes 2 to 4 as well. */
  function Shortcuts(n: nat): seq<(nat, nat)>
    requires n >= 5
  {
    Star(0, 1, n) + Star(1, 2, 5)
  }

  /** Nodes as they are added, but for the resistance of node 0 and the capacitances. */
  function Slow(n: nat): (r: seq<RrNode>)
    ensures |r| == n && Unwired(r)
    ensures forall v :: 0 <= v < n ==>
              r[v].x == r[v].y == 0 && r[v].r == (if v == 0 then 4.0 else 1.0) && r[v].c == if v == 1 then 1.0 else 10.0
  {
    seq(n, v => NewNode(RrChanX, 0, 0).(r := if v == 0 then 4.0 else 1.0, c := if v == 1 then 1.0 else 10.0))
  }

  lemma {:induction false} ShortcutsTargets(n: nat)
    requires n >= 5
    ensures Targets(Shortcuts(n), 0) == Range(1, n) && Targets(Shortcuts(n), 1) == Range(2, 5)
    ensures |Shortcuts(n)| == n + 2
  {
    TargetsOfBoth(Star(0, 1, n), Star(1, 2, 5), 0);
    TargetsOfBoth(Star(0, 1, n), Star(1, 2, 5), 1);
    TargetsOfStar(0, 1, n, 0);
    TargetsOfStar(0, 1, n, 1);
    TargetsOfStar(1, 2, 5, 0);
    TargetsOfStar(1, 2, 5, 1);
  }

  /** From five nodes on, two edges more than nodes are enough to have more entries than nodes after two turns. */
  lemma {:induction false} HeapOutgrows(n: nat) returns (nodes: seq<RrNode>)
    requires n >= 5
    ensures Sized(nodes, n, n + 2) && !HasRoom(nodes, true, 0, n - 1)
  {
    nodes := SlowGraph(n);
    SlowIsDetour(nodes);
    DetourSecond(nodes, true, 0, n - 1, 1);
    SinkNotYet(nodes, n);
    assert |Turns(nodes, true, 0, n - 1, 2).heap| == n + 1;
  }

  lemma {:induction false} SlowGraph(n: nat) returns (nodes: seq<RrNode>)
    requires n >= 5
    ensures Sized(nodes, n, n + 2) && |nodes[0].outEdges| == n - 1 && |nodes[1].outEdges| == 3
    ensures nodes[0].outEdges == Range(1, n) && nodes[1].outEdges == Range(2, 5)
    ensures forall v :: 0 <= v < n ==>
              && nodes[v].x == nodes[v].y == 0 && nodes[v].r == (if v == 0 then 4.0 else 1.0)
              && nodes[v].c == if v == 1 then 1.0 else 10.0
  {
    ShortcutsTargets(n);
    nodes := Wired(Slow(n), Shortcuts(n));
    WiredIsSized(Slow(n), Shortcuts(n), nodes);
    WiredTargets(Slow(n), Shortcuts(n), nodes, 0);
    WiredTargets(Slow(n), Shortcuts(n), nodes, 1);
    SlowFields(n, nodes);
  }

  lemma {:induction false} SlowFields(n: nat, nodes: seq<RrNode>)
    requires n >= 5 && EndsBelow(Shortcuts(n), n) && nodes == Wired(Slow(n), Shortcuts(n))
    ensures forall v :: 0 <= v < n ==>
              && nodes[v].x == nodes[v].y == 0 && nodes[v].r == (if v == 0 then 4.0 else 1.0)
              && nodes[v].c == if v == 1 then 1.0 else 10.0
  {
  }

  lemma {:induction false} SlowIsDetour(nodes: seq<RrNode>)
    requires |nodes| >= 5 && InRange(OutEdges(nodes))
    requires nodes[0].outEdges == Range(1, |nodes|) && nodes[1].outEdges == Range(2, 5)
    requires nodes[0].r == 4.0 && nodes[1].r == nodes[1].c == 1.0
    requires forall v :: 0 <= v < |nodes| ==> nodes[v].x == nodes[v].y == 0 && (v > 1 ==> nodes[v].c == 10.0)
    ensures Detour(nodes, true, 0, |nodes| - 1, 1)
  {
    assert EdgeDelay(nodes, true, 0, 1) == 4.0 && Manhattan(nodes[1], nodes[|nodes| - 1]) == 0.0;
    forall v | 2 <= v < |nodes| ensures EdgeDelay(nodes, true, 0, v) == 40.0 && EdgeDelay(nodes, true, 1, v) == 10.0 {
    }
  }

  lemma {:induction false} SinkNotYet(nodes: seq<RrNode>, n: nat)
    requires n >= 5 && |nodes| == n && InRange(OutEdges(nodes)) && Detour(nodes, true, 0, n - 1, 1)
    ensures UnderWay(nodes, true, 0, n - 1, 2)
  {
    DetourFirst(nodes, true, 0, n - 1, 1, Turns(nodes, true, 0, n - 1, 1));
  }

  /**
   One slot per node is enough for every search on every graph of `n` nodes and at most `e` edges exactly when there are
   at most four nodes, or at most one edge more than nodes.
   */
  lemma {:induction false} AlwaysRoomIff(n: nat, e: nat)
    ensures AlwaysRoom(n, e) <==> n <= 4 || e <= n + 1
  {
    if n <= 4 || e <= n + 1 {
      forall nodes, td, src: nat, sink: nat | Sized(nodes, n, e) && src < n && sink < n
        ensures HasRoom(nodes, td, src, sink)
      {
        forall k: nat | UnderWay(nodes, td, src, sink, k) ensures |Turns(nodes, td, src, sink, k).heap| <= n {
          BookedRun(nodes, td, src, sink, k, Turns(nodes, td, src, sink, k));
          PushesWithin(nodes, td, src, sink, k, Turns(nodes, td, src, sink, k));
          BookedFits(n, e, k, Turns(nodes, td, src, sink, k));
        }
      }
    } else {
      var nodes := HeapOutgrows(n);
      SizedMore(nodes, n, n + 2, e);
    }
  }
}
