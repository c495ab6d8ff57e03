/**
 What the router's search puts into its heap: each entry carries the label its node had then
 plus the number of unit steps to the sink.
 */
module AStarKeys {
  import opened GraphSearch
  import opened RoutingFabric
  import opened AStarHeap
  import opened AStar

  // ---------------------------------------------------------------- the distance

  type Spot = (int, int)

  /** One step to the left, right, up or down. */
  ghost predicate UnitStep(a: Spot, b: Spot) {
    || (a.1 == b.1 && (b.0 == a.0 + 1 || b.0 == a.0 - 1))
    || (a.0 == b.0 && (b.1 == a.1 + 1 || b.1 == a.1 - 1))
  }

  ghost predicate Stroll(p: seq<Spot>, a: Spot, b: Spot) {
    && p != [] && p[0] == a && p[|p| - 1] == b
    && forall i :: 0 <= i < |p| - 1 ==> UnitStep(p[i], p[i + 1])
  }

  /** `d` is the least number of unit steps from one node's position to the other's. */
  ghost predicate LeastSteps(a: RrNode, b: RrNode, d: nat) {
    && (forall p :: Stroll(p, (a.x, a.y), (b.x, b.y)) ==> |p| - 1 >= d)
    && (exists p :: Stroll(p, (a.x, a.y), (b.x, b.y)) && |p| - 1 == d)
  }

  function Between(a: Spot, b: Spot): nat {
    Abs(a.0 - b.0) + Abs(a.1 - b.1)
  }

  lemma {:induction false} StrollIsLong(p: seq<Spot>, a: Spot, b: Spot)
    requires Stroll(p, a, b)
    ensures |p| - 1 >= Between(a, b)
  {
    if |p| > 1 {
      assert UnitStep(p[0], p[1]);
      StrollIsLong(p[1..], p[1], b);
    }
  }

  lemma {:induction false} StrollThere(a: Spot, b: Spot) returns (p: seq<Spot>)
    ensures Stroll(p, a, b) && |p| - 1 == Between(a, b)
    decreases Between(a, b)
  {
    if a == b {
      p := [a];
    } else {
      var c := if a.0 < b.0 then (a.0 + 1, a.1) else if a.0 > b.0 then (a.0 - 1, a.1)
               else if a.1 < b.1 then (a.0, a.1 + 1) else (a.0, a.1 - 1);
      var rest := StrollThere(c, b);
      p := [a] + rest;
      assert UnitStep(a, c);
    }
  }

  /** The estimate added to a label is the least number of unit steps to the sink. */
  lemma {:induction false} ManhattanIsLeast(a: RrNode, b: RrNode) returns (d: nat)
    ensures LeastSteps(a, b, d) && Manhattan(a, b) == d as real
  {
    d := Between((a.x, a.y), (b.x, b.y));
    var p := StrollThere((a.x, a.y), (b.x, b.y));
    forall p | Stroll(p, (a.x, a.y), (b.x, b.y)) ensures |p| - 1 >= d {
      StrollIsLong(p, (a.x, a.y), (b.x, b.y));
    }
  }

  /** A label is the number of edges of a walk in untimed routing, and adds up resistance times capacitance in timed. */
  lemma {:induction false} WalkDelayAdds(nodes: seq<RrNode>, p: seq<nat>, v: nat)
    requires v < |nodes| && p != [] && forall i :: 0 <= i < |p| ==> p[i] < |nodes|
    ensures WalkDelay(nodes, false, p) == (|p| - 1) as real
    ensures WalkDelay(nodes, true, [v]) == 0.0
    ensures WalkDelay(nodes, true, p + [v]) == WalkDelay(nodes, true, p) + nodes[p[|p| - 1]].r * nodes[v].c
  {
    assert (p + [v])[..|p|] == p;
    if |p| > 1 {
      WalkDelayAdds(nodes, p[..|p| - 1], v);
    }
  }

  // ---------------------------------------------------------------- one turn

  /** What an edge from `u` would make the label of `v`. */
  function Offer(nodes: seq<RrNode>, td: bool, m: Machine, u: nat, v: nat): real
    requires Fitted(nodes, m) && u < |nodes| && v < |nodes|
  {
    (if m.cost[u].Finite? then m.cost[u].value else 0.0) + (if td then nodes[u].r * nodes[v].c else 1.0)
  }

  /** The node is unvisited and gets a label it had not, or a lower one. */
  ghost predicate Gains(nodes: seq<RrNode>, td: bool, m: Machine, u: nat, i: nat, v: nat)
    requires Fitted(nodes, m) && u < |nodes| && i <= |nodes[u].outEdges|
  {
    && v < |nodes| && v in nodes[u].outEdges[i..] && !m.visited[v]
    && (m.cost[v].Infinite? || Offer(nodes, td, m, u, v) < m.cost[v].value)
  }

  function Key(nodes: seq<RrNode>, sink: nat, v: nat, l: real): Entry
    requires v < |nodes| && sink < |nodes|
  {
    Entry(v, l + Manhattan(nodes[v], nodes[sink]))
  }

  /** Relaxing the edges of `u` relabels and pushes exactly the nodes that gain, once each, and changes nothing else. */
  ghost predicate Spread(nodes: seq<RrNode>, td: bool, sink: nat, u: nat, i: nat, m: Machine, r: Machine)
    requires Fitted(nodes, m) && Fitted(nodes, r) && u < |nodes| && sink < |nodes| && i <= |nodes[u].outEdges|
  {
    && r.visited == m.visited
    && (forall v: nat :: v < |nodes| ==>
          if Gains(nodes, td, m, u, i, v) then r.cost[v] == Finite(Offer(nodes, td, m, u, v)) && r.prev[v] == u
          else r.cost[v] == m.cost[v] && r.prev[v] == m.prev[v])
    && (forall e: Entry :: multiset(r.heap)[e] == multiset(m.heap)[e]
          + if Gains(nodes, td, m, u, i, e.node) && e == Key(nodes, sink, e.node, Offer(nodes, td, m, u, e.node))
            then 1 else 0)
  }

  /** `v` gets the label that the edge from `u` offers. */
  ghost predicate Gained(nodes: seq<RrNode>, td: bool, sink: nat, u: nat, v: nat, m: Machine, next: Machine)
    requires Fitted(nodes, m) && u < |nodes| && v < |nodes| && sink < |nodes|
  {
    var c := Offer(nodes, td, m, u, v);
    && next.cost == m.cost[v := Finite(c)] && next.prev == m.prev[v := u] && next.visited == m.visited
    && multiset(next.heap) == multiset(m.heap) + multiset{Key(nodes, sink, v, c)}
  }

  lemma {:induction false} EdgeGains(nodes: seq<RrNode>, td: bool, sink: nat, u: nat, i: nat, m: Machine, next: Machine)
    requires Fitted(nodes, m) && u < |nodes| && sink < |nodes| && i < |nodes[u].outEdges|
    requires nodes[u].outEdges[i] < |nodes| && next == Relaxed(nodes, td, sink, u, nodes[u].outEdges[i], m)
    ensures if Gains(nodes, td, m, u, i, nodes[u].outEdges[i])
            then Gained(nodes, td, sink, u, nodes[u].outEdges[i], m, next) else next == m
  {
    var v := nodes[u].outEdges[i];
    assert nodes[u].outEdges[i..][0] == v;
    PushedHolds(m.heap, Key(nodes, sink, v, Offer(nodes, td, m, u, v)));
  }

  lemma {:induction false} NothingLeft(nodes: seq<RrNode>, td: bool, sink: nat, u: nat, i: nat, m: Machine)
    requires Fitted(nodes, m) && u < |nodes| && sink < |nodes| && i == |nodes[u].outEdges|
    ensures Spread(nodes, td, sink, u, i, m, m)
  {
    assert nodes[u].outEdges[i..] == [];
  }

  lemma {:induction false} RelaxSpreads(nodes: seq<RrNode>, td: bool, sink: nat, u: nat, i: nat, m: Machine, r: Machine)
    requires Fitted(nodes, m) && u < |nodes| && sink < |nodes| && InRange(OutEdges(nodes)) && i <= |nodes[u].outEdges|
    requires m.visited[u] && r == RelaxedFrom(nodes, td, sink, u, i, m)
    ensures Spread(nodes, td, sink, u, i, m, r)
    decreases |nodes[u].outEdges| - i
  {
    var out := nodes[u].outEdges;
    if i == |out| {
      NothingLeft(nodes, td, sink, u, i, m);
    } else {
      assert out[i] == OutEdges(nodes)[u][i];
      var next := Relaxed(nodes, td, sink, u, out[i], m);
      RelaxSpreads(nodes, td, sink, u, i + 1, next, r);
      EdgeGains(nodes, td, sink, u, i, m, next);
      if Gains(nodes, td, m, u, i, out[i]) {
        SpreadOver(nodes, td, sink, u, i, m, next, r);
      } else {
        SpreadPast(nodes, td, sink, u, i, m, r);
      }
    }
  }

  lemma {:induction false} SpreadPast(nodes: seq<RrNode>, td: bool, sink: nat, u: nat, i: nat, m: Machine, r: Machine)
    requires Fitted(nodes, m) && Fitted(nodes, r) && u < |nodes| && sink < |nodes| && i < |nodes[u].outEdges|
    requires !Gains(nodes, td, m, u, i, nodes[u].outEdges[i]) && Spread(nodes, td, sink, u, i + 1, m, r)
    ensures Spread(nodes, td, sink, u, i, m, r)
  {
    forall v: nat ensures Gains(nodes, td, m, u, i, v) == Gains(nodes, td, m, u, i + 1, v) {
      GainsFrom(nodes, td, m, u, i, v);
    }
  }

  lemma {:induction false} GainsFrom(nodes: seq<RrNode>, td: bool, m: Machine, u: nat, i: nat, v: nat)
    requires Fitted(nodes, m) && u < |nodes| && i < |nodes[u].outEdges|
    ensures v != nodes[u].outEdges[i] ==> Gains(nodes, td, m, u, i, v) == Gains(nodes, td, m, u, i + 1, v)
    ensures Gains(nodes, td, m, u, i + 1, v) ==> Gains(nodes, td, m, u, i, v)
  {
    var out := nodes[u].outEdges;
    assert out[i..] == [out[i]] + out[i + 1..];
  }

  lemma {:induction false} SpreadOver(nodes: seq<RrNode>, td: bool, sink: nat, u: nat, i: nat, m: Machine,
                                      next: Machine, r: Machine)
    requires Fitted(nodes, m) && Fitted(nodes, next) && Fitted(nodes, r) && u < |nodes| && sink < |nodes|
    requires i < |nodes[u].outEdges| && nodes[u].outEdges[i] < |nodes| && m.visited[u]
    requires Gains(nodes, td, m, u, i, nodes[u].outEdges[i])
    requires Gained(nodes, td, sink, u, nodes[u].outEdges[i], m, next)
    requires Spread(nodes, td, sink, u, i + 1, next, r)
    ensures Spread(nodes, td, sink, u, i, m, r)
  {
    var v := nodes[u].outEdges[i];
    forall w: nat | w < |nodes|
      ensures Offer(nodes, td, next, u, w) == Offer(nodes, td, m, u, w)
      ensures w != v ==> Gains(nodes, td, next, u, i + 1, w) == Gains(nodes, td, m, u, i, w)
    {
      GainsFrom(nodes, td, m, u, i, w);
    }
    assert !Gains(nodes, td, next, u, i + 1, v);
  }

  /** What one turn of a search does to a machine whose heap is not empty. */
  lemma {:induction false} TurnSpreads(nodes: seq<RrNode>, td: bool, sink: nat, m: Machine, r: Machine)
    requires Fitted(nodes, m) && sink < |nodes| && InRange(OutEdges(nodes)) && m.heap != []
    requires m.heap[0].node < |nodes| && r == Turn(nodes, td, sink, m)
    ensures var u := m.heap[0].node;
            var taken := m.(visited := m.visited[u := true], heap := Popped(m.heap));
            && multiset(taken.heap) == multiset(m.heap) - multiset{m.heap[0]}
            && if m.visited[u] || u == sink then r == taken else Spread(nodes, td, sink, u, 0, taken, r)
  {
    var u := m.heap[0].node;
    PoppedHolds(m.heap);
    if !m.visited[u] && u != sink {
      RelaxSpreads(nodes, td, sink, u, 0, Taken(m), r);
    }
  }

  // ---------------------------------------------------------------- the keys of a whole search

  /** The key of the entry is the number of steps to the sink plus a label its node had after one of the turns. */
  ghost predicate Keyed(nodes: seq<RrNode>, td: bool, src: nat, sink: nat, k: nat, e: Entry)
    requires src < |nodes| && sink < |nodes| && InRange(OutEdges(nodes))
  {
    e.node < |nodes| && exists j: nat, l: real :: j <= k && Labelled(nodes, td, src, sink, j, e, l)
  }

  ghost predicate Labelled(nodes: seq<RrNode>, td: bool, src: nat, sink: nat, j: nat, e: Entry, l: real)
    requires src < |nodes| && sink < |nodes| && InRange(OutEdges(nodes)) && e.node < |nodes|
  {
    Turns(nodes, td, src, sink, j).cost[e.node] == Finite(l) && e == Key(nodes, sink, e.node, l)
  }

  /** Every unvisited node that has a label is in the heap with that label's key. */
  ghost predicate Waits(nodes: seq<RrNode>, sink: nat, m: Machine)
    requires Fitted(nodes, m) && sink < |nodes|
  {
    forall v: nat :: v < |nodes| && !m.visited[v] && m.cost[v].Finite? ==>
      Key(nodes, sink, v, m.cost[v].value) in m.heap
  }

  lemma {:induction false} SpreadKeys(nodes: seq<RrNode>, td: bool, sink: nat, u: nat, m: Machine, r: Machine)
    requires Fitted(nodes, m) && Fitted(nodes, r) && u < |nodes| && sink < |nodes|
    requires Spread(nodes, td, sink, u, 0, m, r) && Waits(nodes, sink, m)
    ensures Waits(nodes, sink, r)
    ensures forall e: Entry :: e in r.heap && e !in m.heap ==>
              e.node < |nodes| && r.cost[e.node].Finite? && e == Key(nodes, sink, e.node, r.cost[e.node].value)
  {
    forall e: Entry ensures (e in r.heap) == (multiset(r.heap)[e] > 0) && (e in m.heap) == (multiset(m.heap)[e] > 0) {
    }
    forall v: nat | v < |nodes| && !r.visited[v] && r.cost[v].Finite?
      ensures Key(nodes, sink, v, r.cost[v].value) in r.heap
    {
      var e := Key(nodes, sink, v, r.cost[v].value);
      assert multiset(r.heap)[e] > 0;
    }
  }

  /** At any turn every entry is keyed by a label, and every waiting node by its present one. */
  lemma {:induction false} HeapIsKeyed(nodes: seq<RrNode>, td: bool, src: nat, sink: nat, k: nat, r: Machine)
    requires src < |nodes| && sink < |nodes| && InRange(OutEdges(nodes)) && r == Turns(nodes, td, src, sink, k)
    ensures Waits(nodes, sink, r) && forall e :: e in r.heap ==> Keyed(nodes, td, src, sink, k, e)
    decreases k
  {
    if k == 0 {
      KeyedStart(nodes, td, src, sink, k, r);
    } else {
      var m := Turns(nodes, td, src, sink, k - 1);
      HeapIsKeyed(nodes, td, src, sink, k - 1, m);
      KeyedTurn(nodes, td, src, sink, k, m, r);
    }
  }

  lemma {:induction false} KeyedStart(nodes: seq<RrNode>, td: bool, src: nat, sink: nat, k: nat, r: Machine)
    requires src < |nodes| && sink < |nodes| && InRange(OutEdges(nodes)) && k == 0
    requires r == Turns(nodes, td, src, sink, k)
    ensures Waits(nodes, sink, r) && forall e :: e in r.heap ==> Keyed(nodes, td, src, sink, k, e)
  {
    var e := r.heap[0];
    assert r.heap == [e] && Labelled(nodes, td, src, sink, k, e, 0.0);
  }

  lemma {:induction false} KeyedTurn(nodes: seq<RrNode>, td: bool, src: nat, sink: nat, k: nat, m: Machine, r: Machine)
    requires src < |nodes| && sink < |nodes| && InRange(OutEdges(nodes)) && k > 0
    requires m == Turns(nodes, td, src, sink, k - 1) && r == Turns(nodes, td, src, sink, k)
    requires Waits(nodes, sink, m) && forall e :: e in m.heap ==> Keyed(nodes, td, src, sink, k - 1, e)
    ensures Waits(nodes, sink, r) && forall e :: e in r.heap ==> Keyed(nodes, td, src, sink, k, e)
  {
    KeysOfTurn(nodes, td, sink, m, r);
    forall e | e in r.heap ensures Keyed(nodes, td, src, sink, k, e) {
      if e in m.heap {
        var j: nat, l: real :| j <= k - 1 && Labelled(nodes, td, src, sink, j, e, l);
      } else {
        assert Labelled(nodes, td, src, sink, k, e, r.cost[e.node].value);
      }
    }
  }

  lemma {:induction false} KeysOfTurn(nodes: seq<RrNode>, td: bool, sink: nat, m: Machine, r: Machine)
    requires Fitted(nodes, m) && sink < |nodes| && InRange(OutEdges(nodes)) && r == Turn(nodes, td, sink, m)
    requires Waits(nodes, sink, m) && forall e :: e in m.heap ==> e.node < |nodes|
    ensures Waits(nodes, sink, r)
    ensures forall e: Entry :: e in r.heap && e !in m.heap ==>
              e.node < |nodes| && r.cost[e.node].Finite? && e == Key(nodes, sink, e.node, r.cost[e.node].value)
  {
    if m.heap != [] {
      TurnSpreads(nodes, td, sink, m, r);
      var u := m.heap[0].node;
      var taken := m.(visited := m.visited[u := true], heap := Popped(m.heap));
      forall e: Entry
        ensures (e in taken.heap) == (multiset(taken.heap)[e] > 0) && (e in m.heap) == (multiset(m.heap)[e] > 0)
      {
      }
      assert Waits(nodes, sink, taken) by {
        forall v: nat | v < |nodes| && !taken.visited[v] && m.cost[v].Finite?
          ensures Key(nodes, sink, v, m.cost[v].value) in taken.heap
        {
          assert Key(nodes, sink, v, m.cost[v].value) in m.heap;
        }
      }
      if !m.visited[u] && u != sink {
        SpreadKeys(nodes, td, sink, u, taken, r);
      }
    }
  }
}
