/**
 The timing graph of the FPGA flow, what its times mean, and the forward pass, which
 computes the arrival times.
 */
module TimingFpga {
  import opened GraphSearch
  import opened TimingPaths

  const MAX_TIMING_NODES := 4096
  const MAX_TIMING_EDGES := 8192

  datatype TimingNodeType = TnInput | TnOutput | TnComb | TnFfSrc | TnFfSink | TnClkSrc | TnClkSink

  /** A time; Unbounded stands for the initial DBL_MAX. */
  datatype Time = At(value: real) | Unbounded

  predicate Before(a: Time, b: Time) {
    a.At? && (b.Unbounded? || a.value < b.value)
  }

  function Minus(a: Time, d: real): Time {
    if a.At? then At(a.value - d) else Unbounded
  }

  datatype TimingNode = TimingNode(
    kind: TimingNodeType, arrival: real, required: Time, slack: Time, delay: real, clkDomain: int,
    fanins: seq<nat>, fanouts: seq<nat>)

  function NewNode(kind: TimingNodeType): TimingNode {
    TimingNode(kind, 0.0, Unbounded, At(0.0), 0.1, 0, [], [])
  }

  /** The fan lists of `v` name each edge at `v` once. */
  ghost predicate WiredAt(nodes: seq<TimingNode>, edges: seq<TimingEdge>, v: nat)
    requires v < |nodes|
  {
    && Simple(nodes[v].fanins) && Simple(nodes[v].fanouts)
    && (forall e: nat :: e in nodes[v].fanins <==> e < |edges| && edges[e].to == v)
    && (forall e: nat :: e in nodes[v].fanouts <==> e < |edges| && edges[e].from == v)
  }

  ghost predicate Wired(nodes: seq<TimingNode>, edges: seq<TimingEdge>) {
    && EdgesInRange(edges, |nodes|)
    && (forall e :: 0 <= e < |edges| ==> !edges[e].isFalsePath)
    && (forall v: nat {:trigger WiredAt(nodes, edges, v)} :: v < |nodes| ==> WiredAt(nodes, edges, v))
  }

  datatype Constraints = Constraints(clockPeriods: seq<real>, defaultPeriod: real)

  /** What an endpoint in the clock domain is required by: the period given for it if positive, else the default. */
  function EndPeriod(tc: Constraints, domain: int): real {
    if 0 <= domain < |tc.clockPeriods| && tc.clockPeriods[domain] > 0.0 then tc.clockPeriods[domain]
    else tc.defaultPeriod
  }

  method GetClockPeriod(tc: Constraints, domain: int) returns (period: real)
    ensures 0 <= domain < |tc.clockPeriods| ==> period == tc.clockPeriods[domain]
    ensures domain < 0 || domain >= |tc.clockPeriods| ==> period == tc.defaultPeriod
  {
    if domain >= 0 && domain < |tc.clockPeriods| {
      return tc.clockPeriods[domain];
    }
    return tc.defaultPeriod;
  }

  // ---------------------------------------------------------------- specification

  /** What the forward pass starts each node from: zero at the primary inputs, else what it finds there. */
  ghost function StartArrivals(nodes: seq<TimingNode>): (r: seq<Ext>)
    ensures |r| == |nodes|
    ensures forall v :: 0 <= v < |nodes| ==> r[v] == Fin(if nodes[v].fanins == [] then 0.0 else nodes[v].arrival)
  {
    seq(|nodes|, v requires 0 <= v < |nodes| => Fin(if nodes[v].fanins == [] then 0.0 else nodes[v].arrival))
  }

  ghost function Arrivals(nodes: seq<TimingNode>): (r: seq<Ext>)
    ensures |r| == |nodes| && forall v :: 0 <= v < |nodes| ==> r[v] == Fin(nodes[v].arrival)
  {
    seq(|nodes|, v requires 0 <= v < |nodes| => Fin(nodes[v].arrival))
  }

  /** `x` is the latest a signal can arrive at `v`: the maximum over all paths that end there. */
  ghost predicate LatestArrival(edges: seq<TimingEdge>, start: seq<Ext>, v: nat, x: real) {
    LongestTo(edges, start, v, Fin(x))
  }

  ghost predicate IsEndpoint(edges: seq<TimingEdge>, t: nat) {
    forall e :: 0 <= e < |edges| ==> edges[e].from != t
  }

  /** `x` is the tightest requirement on `v`: period minus delay, over all paths to an endpoint. */
  ghost predicate TightestRequired(nodes: seq<TimingNode>, edges: seq<TimingEdge>, tc: Constraints, v: nat, x: real) {
    && (forall p, t: nat :: t < |nodes| && IsEndpoint(edges, t) && PathFromTo(edges, p, v, t)
          ==> x <= EndPeriod(tc, nodes[t].clkDomain) - Delay(edges, p))
    && (exists p, t: nat :: t < |nodes| && IsEndpoint(edges, t) && PathFromTo(edges, p, v, t)
          && x == EndPeriod(tc, nodes[t].clkDomain) - Delay(edges, p))
  }

  /** Only what the analysis writes differs. */
  ghost predicate SameGraph(a: seq<TimingNode>, b: seq<TimingNode>) {
    && |a| == |b|
    && forall v :: 0 <= v < |a| ==>
         b[v] == a[v].(arrival := b[v].arrival, required := b[v].required, slack := b[v].slack)
  }

  ghost predicate OnlyArrivals(a: seq<TimingNode>, b: seq<TimingNode>) {
    |a| == |b| && forall v :: 0 <= v < |a| ==> b[v] == a[v].(arrival := b[v].arrival)
  }

  ghost predicate OnlyRequired(a: seq<TimingNode>, b: seq<TimingNode>) {
    |a| == |b| && forall v :: 0 <= v < |a| ==> b[v] == a[v].(required := b[v].required)
  }

  lemma SameGraphWired(a: seq<TimingNode>, b: seq<TimingNode>, edges: seq<TimingEdge>)
    requires SameGraph(a, b) && Wired(a, edges)
    ensures Wired(b, edges)
  {
    forall v: nat | v < |b| ensures WiredAt(b, edges, v) {
      assert WiredAt(a, edges, v);
    }
  }

  // ---------------------------------------------------------------- graph

  class TimingGraph {
    var nodes: seq<TimingNode>
    var edges: seq<TimingEdge>

    ghost predicate Valid() reads this {
      |nodes| <= MAX_TIMING_NODES && |edges| <= MAX_TIMING_EDGES && Wired(nodes, edges)
    }

    constructor ()
      ensures Valid() && nodes == [] && edges == []
    {
      nodes, edges := [], [];
    }

    method AddNode(kind: TimingNodeType) returns (id: int)
      requires Valid()
      modifies this
      ensures Valid() && edges == old(edges)
      ensures |old(nodes)| >= MAX_TIMING_NODES ==> id == -1 && nodes == old(nodes)
      ensures |old(nodes)| < MAX_TIMING_NODES ==>
                && id == |old(nodes)|
                && nodes == old(nodes) + [TimingNode(kind, 0.0, Unbounded, At(0.0), 0.1, 0, [], [])]
    {
      if |nodes| >= MAX_TIMING_NODES {
        return -1;
      }
      id := |nodes|;
      AddNodeWired(nodes, edges, NewNode(kind));
      nodes := nodes + [NewNode(kind)];
    }

    method AddEdge(from: nat, to: nat, delay: real, wireDelay: real) returns (id: int)
      requires Valid() && from < |nodes| && to < |nodes|
      modifies this
      ensures Valid()
      ensures |old(edges)| >= MAX_TIMING_EDGES ==> id == -1 && nodes == old(nodes) && edges == old(edges)
      ensures |old(edges)| < MAX_TIMING_EDGES ==>
                && id == |old(edges)|
                && edges == old(edges) + [TimingEdge(from, to, delay, wireDelay, delay - wireDelay, false)]
                && nodes == WithEdge(old(nodes), from, to, id)
    {
      if |edges| >= MAX_TIMING_EDGES {
        return -1;
      }
      var eid := |edges|;
      AddEdgeWired(nodes, edges, TimingEdge(from, to, delay, wireDelay, delay - wireDelay, false));
      edges := edges + [TimingEdge(from, to, delay, wireDelay, delay - wireDelay, false)];
      nodes := nodes[from := nodes[from].(fanouts := nodes[from].fanouts + [eid])];
      nodes := nodes[to := nodes[to].(fanins := nodes[to].fanins + [eid])];
      id := eid;
    }
  }

  function WithEdge(nodes: seq<TimingNode>, from: nat, to: nat, e: nat): (r: seq<TimingNode>)
    requires from < |nodes| && to < |nodes|
    ensures |r| == |nodes|
    ensures forall v :: 0 <= v < |nodes| ==>
              && r[v] == nodes[v].(fanins := r[v].fanins, fanouts := r[v].fanouts)
              && r[v].fanouts == (if v == from then nodes[v].fanouts + [e] else nodes[v].fanouts)
              && r[v].fanins == (if v == to then nodes[v].fanins + [e] else nodes[v].fanins)
  {
    var n1 := nodes[from := nodes[from].(fanouts := nodes[from].fanouts + [e])];
    n1[to := n1[to].(fanins := n1[to].fanins + [e])]
  }

  lemma AddNodeWired(nodes: seq<TimingNode>, edges: seq<TimingEdge>, node: TimingNode)
    requires Wired(nodes, edges) && node.fanins == [] && node.fanouts == []
    ensures Wired(nodes + [node], edges)
  {
    forall v: nat | v < |nodes| + 1 ensures WiredAt(nodes + [node], edges, v) {
      if v < |nodes| { assert WiredAt(nodes, edges, v); }
    }
  }

  lemma AddEdgeWired(nodes: seq<TimingNode>, edges: seq<TimingEdge>, e: TimingEdge)
    requires Wired(nodes, edges) && e.from < |nodes| && e.to < |nodes| && !e.isFalsePath
    ensures Wired(WithEdge(nodes, e.from, e.to, |edges|), edges + [e])
  {
    var r := WithEdge(nodes, e.from, e.to, |edges|);
    forall v: nat | v < |r| ensures WiredAt(r, edges + [e], v) {
      assert WiredAt(nodes, edges, v);
      assert |edges| !in nodes[v].fanins && |edges| !in nodes[v].fanouts;
      AppendId(nodes[v].fanins, |edges|);
      AppendId(nodes[v].fanouts, |edges|);
    }
  }

  lemma AppendId(s: seq<nat>, x: nat)
    requires Simple(s) && x !in s
    ensures Simple(s + [x]) && forall e :: e in s + [x] <==> e in s || e == x
  {
  }

  // ---------------------------------------------------------------- forward pass

  lemma FanSize(s: seq<nat>, S: set<nat>)
    requires Simple(s) && forall e :: e in s <==> e in S
    ensures |s| == |S|
    decreases |s|
  {
    if s == [] {
      assert S == {};
    } else {
      var x := s[|s| - 1];
      var r := s[..|s| - 1];
      assert s == r + [x] && x !in r;
      FanSize(r, S - {x});
    }
  }

  lemma FaninCount(nodes: seq<TimingNode>, edges: seq<TimingEdge>, v: nat)
    requires Wired(nodes, edges) && v < |nodes|
    ensures |nodes[v].fanins| == |EdgesInto(edges, v)|
    ensures nodes[v].fanins == [] <==> EdgesInto(edges, v) == {}
  {
    assert WiredAt(nodes, edges, v);
    FanSize(nodes[v].fanins, EdgesInto(edges, v));
  }

  lemma FanoutCount(nodes: seq<TimingNode>, edges: seq<TimingEdge>, v: nat)
    requires Wired(nodes, edges) && v < |nodes|
    ensures |nodes[v].fanouts| == |EdgesInto(Flipped(edges), v)|
    ensures nodes[v].fanouts == [] <==> EdgesInto(Flipped(edges), v) == {}
    ensures nodes[v].fanouts == [] <==> IsEndpoint(edges, v)
  {
    assert WiredAt(nodes, edges, v);
    FanSize(nodes[v].fanouts, EdgesInto(Flipped(edges), v));
    if nodes[v].fanouts != [] { assert nodes[v].fanouts[0] in nodes[v].fanouts; }
  }

  /** Nothing relaxed, and exactly the nodes that wait for no edge queued. */
  lemma StartPropagated(E: seq<TimingEdge>, n: nat, init: seq<Ext>, s: Kahn)
    requires EdgesInRange(E, n) && |s.deg| == |init| == n && s.val == init && Simple(s.queue)
    requires forall v: nat :: v < n ==> s.deg[v] == |EdgesInto(E, v)|
    requires forall v: nat :: v in s.queue <==> v < n && EdgesInto(E, v) == {}
    ensures Propagated(E, n, init, s, {})
  {
    forall i | 0 <= i < |s.queue| ensures s.queue[i] < n { assert s.queue[i] in s.queue; }
    forall v: nat | v < n ensures CountedAt(E, s, {}, v) {
      assert EdgesInto(E, v) - {} == EdgesInto(E, v);
    }
    forall e: nat, j: nat | e < |E| && j < |s.queue| ensures E[e].to != s.queue[j] {
      assert s.queue[j] in s.queue;
      assert e in EdgesInto(E, E[e].to);
    }
  }

  /** The propagation state of the forward pass. */
  ghost function Forward(deg: seq<int>, queue: seq<nat>, nodes: seq<TimingNode>): Kahn {
    Kahn(deg, queue, Arrivals(nodes))
  }

  /** Relaxes edge `eid` and, when it was the last one into its node, queues that node. */
  method RelaxForward(tg: TimingGraph, inDeg: array<int>, queue: array<nat>, qt: nat, eid: nat,
                      ghost init: seq<Ext>, ghost R: set<nat>)
    returns (qt': nat)
    requires tg.Valid() && inDeg as object != queue && inDeg.Length == queue.Length == |tg.nodes| && qt <= |tg.nodes|
    requires Propagated(tg.edges, |tg.nodes|, init, Forward(inDeg[..], queue[..qt], tg.nodes), R)
    requires eid < |tg.edges| && eid !in R && tg.edges[eid].from in queue[..qt]
    modifies tg`nodes, inDeg, queue
    ensures tg.Valid() && OnlyArrivals(old(tg.nodes), tg.nodes) && qt <= qt' <= |tg.nodes|
    ensures queue[..qt] == old(queue[..qt])
    ensures Propagated(tg.edges, |tg.nodes|, init, Forward(inDeg[..], queue[..qt'], tg.nodes), R + {eid})
  {
    ghost var s := Forward(inDeg[..], queue[..qt], tg.nodes);
    ghost var before := tg.nodes;
    var e := tg.edges[eid];
    var v := e.to;
    ghost var t := RelaxNext(tg.edges, |tg.nodes|, init, s, R, eid);
    qt' := qt;
    var newArr := tg.nodes[e.from].arrival + e.delay;
    if newArr > tg.nodes[v].arrival {
      tg.nodes := tg.nodes[v := tg.nodes[v].(arrival := newArr)];
    }
    assert Arrivals(tg.nodes) == t.val;
    SameGraphWired(before, tg.nodes, tg.edges);
    inDeg[v] := inDeg[v] - 1;
    if inDeg[v] == 0 {
      queue[qt'] := v;
      qt' := qt' + 1;
      assert queue[..qt'] == s.queue + [v];
    }
    assert Forward(inDeg[..], queue[..qt'], tg.nodes) == t;
  }

  /** Relaxes every edge out of `u`. `R` holds the edges out of the nodes queued before it. */
  method RelaxFanouts(tg: TimingGraph, inDeg: array<int>, queue: array<nat>, qh: nat, qt: nat,
                      ghost init: seq<Ext>, ghost R: set<nat>)
    returns (qt': nat, ghost R': set<nat>)
    requires tg.Valid() && inDeg as object != queue && inDeg.Length == queue.Length == |tg.nodes|
             && qh < qt <= |tg.nodes|
    requires Propagated(tg.edges, |tg.nodes|, init, Forward(inDeg[..], queue[..qt], tg.nodes), R)
    requires OutOf(tg.edges, queue[..qh], R)
    modifies tg`nodes, inDeg, queue
    ensures tg.Valid() && OnlyArrivals(old(tg.nodes), tg.nodes) && qt <= qt' <= |tg.nodes|
    ensures queue[..qt] == old(queue[..qt])
    ensures Propagated(tg.edges, |tg.nodes|, init, Forward(inDeg[..], queue[..qt'], tg.nodes), R')
    ensures OutOf(tg.edges, queue[..qh + 1], R')
  {
    ghost var q := queue[..qt];
    var u := queue[qh];
    assert u == q[qh] && u !in q[..qh];
    assert WiredAt(tg.nodes, tg.edges, u);
    var fanouts := tg.nodes[u].fanouts;
    FanoutsUnrelaxed(tg.edges, q, qh, fanouts, R);
    qt', R' := RelaxEach(tg, inDeg, queue, qt, fanouts, init, R);
    NextOutOf(tg.edges, q, qh, fanouts, R, R');
    assert queue[..qh + 1] == q[..qh + 1];
  }

  method RelaxEach(tg: TimingGraph, inDeg: array<int>, queue: array<nat>, qt: nat, ids: seq<nat>,
                   ghost init: seq<Ext>, ghost R: set<nat>)
    returns (qt': nat, ghost R': set<nat>)
    requires tg.Valid() && inDeg as object != queue && inDeg.Length == queue.Length == |tg.nodes| && qt <= |tg.nodes|
    requires Propagated(tg.edges, |tg.nodes|, init, Forward(inDeg[..], queue[..qt], tg.nodes), R)
    requires Ready(tg.edges, queue[..qt], ids, R)
    modifies tg`nodes, inDeg, queue
    ensures tg.Valid() && OnlyArrivals(old(tg.nodes), tg.nodes) && qt <= qt' <= |tg.nodes|
    ensures queue[..qt] == old(queue[..qt])
    ensures Propagated(tg.edges, |tg.nodes|, init, Forward(inDeg[..], queue[..qt'], tg.nodes), R')
    ensures R' == R + Ids(ids, |ids|)
  {
    ghost var q := queue[..qt];
    qt', R' := qt, R;
    var fi := 0;
    while fi < |ids|
      invariant 0 <= fi <= |ids| && qt <= qt' <= |tg.nodes|
      invariant tg.Valid() && OnlyArrivals(old(tg.nodes), tg.nodes) && queue[..qt] == q
      invariant Propagated(tg.edges, |tg.nodes|, init, Forward(inDeg[..], queue[..qt'], tg.nodes), R')
      invariant R' == R + Ids(ids, fi)
    {
      var eid := ids[fi];
      NextReady(tg.edges, q, queue[..qt'], ids, fi, R);
      if !tg.edges[eid].isFalsePath {
        qt' := RelaxForward(tg, inDeg, queue, qt', eid, init, R');
        R' := R' + {eid};
      }
      fi := fi + 1;
    }
  }

  ghost function Ids(ids: seq<nat>, k: nat): (r: set<nat>)
    requires k <= |ids|
    ensures forall e :: e in r <==> e in ids[..k]
  {
    set e | e in ids[..k]
  }

  /** `ids` are distinct edges out of queued nodes, none of them in `R`. */
  ghost predicate Ready(edges: seq<TimingEdge>, q: seq<nat>, ids: seq<nat>, R: set<nat>) {
    && Simple(ids)
    && forall e :: e in ids ==> e < |edges| && e !in R && edges[e].from in q
  }

  lemma {:induction false} NextReady(edges: seq<TimingEdge>, q: seq<nat>, q': seq<nat>, ids: seq<nat>, k: nat,
                                     R: set<nat>)
    requires Ready(edges, q, ids, R) && k < |ids| && |q| <= |q'| && q'[..|q|] == q
    ensures ids[k] < |edges| && ids[k] !in R + Ids(ids, k) && edges[ids[k]].from in q'
    ensures R + Ids(ids, k + 1) == R + Ids(ids, k) + {ids[k]}
  {
    assert ids[k] in ids && ids[..k + 1] == ids[..k] + [ids[k]];
    var i :| 0 <= i < |q| && q[i] == edges[ids[k]].from;
    assert q'[i] == q[i];
  }

  /** `R` is exactly the edges out of the nodes in `q`. */
  ghost predicate OutOf(edges: seq<TimingEdge>, q: seq<nat>, R: set<nat>) {
    forall e: nat :: e in R <==> e < |edges| && edges[e].from in q
  }

  lemma FanoutsUnrelaxed(edges: seq<TimingEdge>, q: seq<nat>, h: nat, out: seq<nat>, R: set<nat>)
    requires h < |q| && OutOf(edges, q[..h], R) && q[h] !in q[..h]
    requires Simple(out) && forall e: nat :: e in out <==> e < |edges| && edges[e].from == q[h]
    ensures Ready(edges, q, out, R)
  {
  }

  lemma {:induction false} NextOutOf(edges: seq<TimingEdge>, q: seq<nat>, h: nat, out: seq<nat>, R: set<nat>,
                                     R': set<nat>)
    requires h < |q| && OutOf(edges, q[..h], R)
    requires forall e: nat :: e in out <==> e < |edges| && edges[e].from == q[h]
    requires R' == R + Ids(out, |out|)
    ensures OutOf(edges, q[..h + 1], R')
  {
    assert q[..h + 1] == q[..h] + [q[h]];
    assert out[..|out|] == out;
  }

  ghost function Seeded(node: TimingNode, passed: bool): TimingNode {
    if passed && node.fanins == [] then node.(arrival := 0.0) else node
  }

  /** Queues every node without fanin, and starts its arrival time at zero. */
  method SeedForward(tg: TimingGraph, inDeg: array<int>, queue: array<nat>) returns (qt: nat)
    requires tg.Valid() && inDeg as object != queue && inDeg.Length == queue.Length == |tg.nodes|
    modifies tg`nodes, inDeg, queue
    ensures tg.Valid() && OnlyArrivals(old(tg.nodes), tg.nodes) && qt <= |tg.nodes|
    ensures Propagated(tg.edges, |tg.nodes|, StartArrivals(old(tg.nodes)), Forward(inDeg[..], queue[..qt], tg.nodes),
                       {})
  {
    ghost var before := tg.nodes;
    var n := |tg.nodes|;
    var i := 0;
    while i < n
      invariant 0 <= i <= n && tg.nodes == before
      invariant forall v :: 0 <= v < i ==> inDeg[v] == |before[v].fanins|
    {
      inDeg[i] := |tg.nodes[i].fanins|;
      i := i + 1;
    }
    qt := 0;
    i := 0;
    while i < n
      invariant 0 <= qt <= i <= n == |tg.nodes| && tg.edges == old(tg.edges)
      invariant forall v :: 0 <= v < n ==> inDeg[v] == |before[v].fanins|
      invariant forall v :: 0 <= v < n ==> tg.nodes[v] == Seeded(before[v], v < i)
      invariant ZeroesBelow(inDeg[..], i, queue[..qt])
      modifies tg`nodes, queue
    {
      ghost var q := queue[..qt];
      ZeroesNext(inDeg[..], i, q);
      if inDeg[i] == 0 {
        tg.nodes := tg.nodes[i := tg.nodes[i].(arrival := 0.0)];
        queue[qt] := i;
        qt := qt + 1;
        assert queue[..qt] == q + [i];
      }
      i := i + 1;
    }
    SeedsPropagated(before, tg.nodes, tg.edges, inDeg[..], queue[..qt]);
  }

  /** `q` lists the positions below `i` that hold zero, in order. */
  ghost predicate ZeroesBelow(deg: seq<int>, i: nat, q: seq<nat>)
    requires i <= |deg|
  {
    && (forall j, k :: 0 <= j < k < |q| ==> q[j] < q[k])
    && (forall v: nat :: v in q <==> v < i && deg[v] == 0)
  }

  lemma ZeroesNext(deg: seq<int>, i: nat, q: seq<nat>)
    requires i < |deg| && ZeroesBelow(deg, i, q)
    ensures ZeroesBelow(deg, i + 1, if deg[i] == 0 then q + [i] else q)
  {
    var r := q + [i];
    assert forall v: nat :: v in r <==> v in q || v == i;
    forall j, k | 0 <= j < k < |r| ensures r[j] < r[k] {
      assert r[j] in q;
    }
  }

  lemma SeedsPropagated(before: seq<TimingNode>, nodes: seq<TimingNode>, edges: seq<TimingEdge>, deg: seq<int>,
                        q: seq<nat>)
    requires Wired(before, edges) && |nodes| == |before| == |deg|
    requires forall v :: 0 <= v < |nodes| ==> nodes[v] == Seeded(before[v], true)
    requires forall v :: 0 <= v < |nodes| ==> deg[v] == |before[v].fanins|
    requires ZeroesBelow(deg, |deg|, q)
    ensures Wired(nodes, edges)
    ensures Propagated(edges, |nodes|, StartArrivals(before), Forward(deg, q, nodes), {})
  {
    SameGraphWired(before, nodes, edges);
    forall v: nat | v < |nodes|
      ensures deg[v] == |EdgesInto(edges, v)| && (before[v].fanins == [] <==> EdgesInto(edges, v) == {})
    {
      FaninCount(before, edges, v);
    }
    assert Arrivals(nodes) == StartArrivals(before);
    StartPropagated(edges, |nodes|, StartArrivals(before), Forward(deg, q, nodes));
  }

  /**
   Arrival times in topological order. Succeeds exactly on a non-empty graph without
   cycles, and then every node holds the latest arrival over all paths into it.
   */
  method ComputeArrival(tg: TimingGraph) returns (ret: int)
    requires tg.Valid()
    modifies tg`nodes
    ensures tg.Valid() && OnlyArrivals(old(tg.nodes), tg.nodes)
    ensures ret == 0 || ret == -1
    ensures ret == 0 <==> tg.nodes != [] && Acyclic(tg.edges)
    ensures ret == 0 ==> forall v: nat :: v < |tg.nodes| ==>
              LatestArrival(tg.edges, StartArrivals(old(tg.nodes)), v, tg.nodes[v].arrival)
  {
    var n := |tg.nodes|;
    ghost var before := tg.nodes;
    ghost var init := StartArrivals(before);
    var inDeg := new int[n];
    var queue := new nat[n];
    var qh, processed := 0, 0;
    var qt := SeedForward(tg, inDeg, queue);
    ghost var R: set<nat> := {};
    assert queue[..0] == [];
    if qt == 0 {
      AllQueuedIffAcyclic(tg.edges, n, init, Forward(inDeg[..], queue[..qt], tg.nodes), R);
      return -1;
    }
    while qh < qt
      invariant 0 <= qh <= qt <= n && processed == qh
      invariant tg.Valid() && OnlyArrivals(before, tg.nodes)
      invariant Propagated(tg.edges, n, init, Forward(inDeg[..], queue[..qt], tg.nodes), R)
      invariant OutOf(tg.edges, queue[..qh], R)
      decreases n - qh
    {
      qt, R := RelaxFanouts(tg, inDeg, queue, qh, qt, init, R);
      qh := qh + 1;
      processed := processed + 1;
    }
    AllQueuedIffAcyclic(tg.edges, n, init, Forward(inDeg[..], queue[..qt], tg.nodes), R);
    if processed < n {
      return -1;
    }
    FinishedIsLongest(tg.edges, n, init, Forward(inDeg[..], queue[..qt], tg.nodes), R);
    return 0;
  }
}
