/**
 The backward pass of static timing, which computes the required times. It is the forward
 pass on the flipped edges with times negated, and is proved as such.
 */
module TimingRequired {
  import opened TimingPaths
  import opened TimingFpga

  ghost function Negated(t: Time): Ext {
    if t.Unbounded? then NegInf else Fin(-t.value)
  }

  ghost function NegRequired(nodes: seq<TimingNode>): (r: seq<Ext>)
    ensures |r| == |nodes| && forall v :: 0 <= v < |nodes| ==> r[v] == Negated(nodes[v].required)
  {
    seq(|nodes|, v requires 0 <= v < |nodes| => Negated(nodes[v].required))
  }

  /** What the backward pass starts each node from: its period at an endpoint, else nothing. */
  function StartTime(node: TimingNode, tc: Constraints): Time {
    if node.fanouts == [] then At(EndPeriod(tc, node.clkDomain)) else Unbounded
  }

  ghost function StartRequired(nodes: seq<TimingNode>, tc: Constraints): (r: seq<Ext>)
    ensures |r| == |nodes| && forall v :: 0 <= v < |nodes| ==> r[v] == Negated(StartTime(nodes[v], tc))
  {
    seq(|nodes|, v requires 0 <= v < |nodes| => Negated(StartTime(nodes[v], tc)))
  }

  ghost function Backward(deg: seq<int>, queue: seq<nat>, nodes: seq<TimingNode>): Kahn {
    Kahn(deg, queue, NegRequired(nodes))
  }

  lemma OnlyRequiredSame(a: seq<TimingNode>, b: seq<TimingNode>, edges: seq<TimingEdge>, tc: Constraints)
    requires OnlyRequired(a, b)
    ensures SameGraph(a, b) && StartRequired(a, tc) == StartRequired(b, tc)
    ensures Wired(a, edges) ==> Wired(b, edges)
  {
    if Wired(a, edges) { SameGraphWired(a, b, edges); }
  }

  method RelaxBackward(tg: TimingGraph, outDeg: array<int>, queue: array<nat>, qt: nat, eid: nat,
                       ghost init: seq<Ext>, ghost R: set<nat>)
    returns (qt': nat)
    requires tg.Valid() && outDeg as object != queue && outDeg.Length == queue.Length == |tg.nodes| && qt <= |tg.nodes|
    requires Propagated(Flipped(tg.edges), |tg.nodes|, init, Backward(outDeg[..], queue[..qt], tg.nodes), R)
    requires eid < |tg.edges| && eid !in R && tg.edges[eid].to in queue[..qt]
    modifies tg`nodes, outDeg, queue
    ensures tg.Valid() && OnlyRequired(old(tg.nodes), tg.nodes) && qt <= qt' <= |tg.nodes|
    ensures queue[..qt] == old(queue[..qt])
    ensures Propagated(Flipped(tg.edges), |tg.nodes|, init, Backward(outDeg[..], queue[..qt'], tg.nodes), R + {eid})
  {
    ghost var F := Flipped(tg.edges);
    ghost var s := Backward(outDeg[..], queue[..qt], tg.nodes);
    ghost var before := tg.nodes;
    var e := tg.edges[eid];
    var u := e.from;
    ghost var t := RelaxNext(F, |tg.nodes|, init, s, R, eid);
    qt' := qt;
    var newReq := Minus(tg.nodes[e.to].required, e.delay);
    if Before(newReq, tg.nodes[u].required) {
      tg.nodes := tg.nodes[u := tg.nodes[u].(required := newReq)];
    }
    assert NegRequired(tg.nodes) == t.val;
    SameGraphWired(before, tg.nodes, tg.edges);
    outDeg[u] := outDeg[u] - 1;
    if outDeg[u] == 0 {
      queue[qt'] := u;
      qt' := qt' + 1;
      assert queue[..qt'] == s.queue + [u];
    }
    assert Backward(outDeg[..], queue[..qt'], tg.nodes) == t;
  }

  method RelaxFanins(tg: TimingGraph, outDeg: array<int>, queue: array<nat>, qh: nat, qt: nat,
                     ghost init: seq<Ext>, ghost R: set<nat>)
    returns (qt': nat, ghost R': set<nat>)
    requires tg.Valid() && outDeg as object != queue && outDeg.Length == queue.Length == |tg.nodes|
             && qh < qt <= |tg.nodes|
    requires Propagated(Flipped(tg.edges), |tg.nodes|, init, Backward(outDeg[..], queue[..qt], tg.nodes), R)
    requires OutOf(Flipped(tg.edges), queue[..qh], R)
    modifies tg`nodes, outDeg, queue
    ensures tg.Valid() && OnlyRequired(old(tg.nodes), tg.nodes) && qt <= qt' <= |tg.nodes|
    ensures queue[..qt] == old(queue[..qt])
    ensures Propagated(Flipped(tg.edges), |tg.nodes|, init, Backward(outDeg[..], queue[..qt'], tg.nodes), R')
    ensures OutOf(Flipped(tg.edges), queue[..qh + 1], R')
  {
    ghost var q := queue[..qt];
    ghost var F := Flipped(tg.edges);
    var v := queue[qh];
    assert v == q[qh] && v !in q[..qh];
    assert WiredAt(tg.nodes, tg.edges, v);
    var fanins := tg.nodes[v].fanins;
    FanoutsUnrelaxed(F, q, qh, fanins, R);
    qt', R' := RelaxEachBack(tg, outDeg, queue, qt, fanins, init, R);
    NextOutOf(F, q, qh, fanins, R, R');
    assert queue[..qh + 1] == q[..qh + 1];
  }

  method RelaxEachBack(tg: TimingGraph, outDeg: array<int>, queue: array<nat>, qt: nat, ids: seq<nat>,
                       ghost init: seq<Ext>, ghost R: set<nat>)
    returns (qt': nat, ghost R': set<nat>)
    requires tg.Valid() && outDeg as object != queue && outDeg.Length == queue.Length == |tg.nodes| && qt <= |tg.nodes|
    requires Propagated(Flipped(tg.edges), |tg.nodes|, init, Backward(outDeg[..], queue[..qt], tg.nodes), R)
    requires Ready(Flipped(tg.edges), queue[..qt], ids, R)
    modifies tg`nodes, outDeg, queue
    ensures tg.Valid() && OnlyRequired(old(tg.nodes), tg.nodes) && qt <= qt' <= |tg.nodes|
    ensures queue[..qt] == old(queue[..qt])
    ensures Propagated(Flipped(tg.edges), |tg.nodes|, init, Backward(outDeg[..], queue[..qt'], tg.nodes), R')
    ensures R' == R + Ids(ids, |ids|)
  {
    ghost var q := queue[..qt];
    qt', R' := qt, R;
    var fi := 0;
    while fi < |ids|
      invariant 0 <= fi <= |ids| && qt <= qt' <= |tg.nodes|
      invariant tg.Valid() && OnlyRequired(old(tg.nodes), tg.nodes) && queue[..qt] == q
      invariant Propagated(Flipped(tg.edges), |tg.nodes|, init, Backward(outDeg[..], queue[..qt'], tg.nodes), R')
      invariant R' == R + Ids(ids, fi)
    {
      var eid := ids[fi];
      NextReady(Flipped(tg.edges), q, queue[..qt'], ids, fi, R);
      if !tg.edges[eid].isFalsePath {
        qt' := RelaxBackward(tg, outDeg, queue, qt', eid, init, R');
        R' := R' + {eid};
      }
      fi := fi + 1;
    }
  }

  /** Queues every endpoint, and starts its required time at its period; all others are unbounded. */
  method SeedBackward(tg: TimingGraph, tc: Constraints, outDeg: array<int>, queue: array<nat>) returns (qt: nat)
    requires tg.Valid() && outDeg as object != queue && outDeg.Length == queue.Length == |tg.nodes|
    modifies tg`nodes, outDeg, queue
    ensures tg.Valid() && OnlyRequired(old(tg.nodes), tg.nodes) && qt <= |tg.nodes|
    ensures Propagated(Flipped(tg.edges), |tg.nodes|, StartRequired(tg.nodes, tc),
                       Backward(outDeg[..], queue[..qt], tg.nodes), {})
  {
    ghost var before := tg.nodes;
    CountFanouts(tg, outDeg);
    qt := QueueEndpoints(tg, tc, outDeg, queue, before);
    EndsPropagated(before, tg.nodes, tg.edges, tc, outDeg[..], queue[..qt]);
  }

  /** Counts the edges out of every node, and makes its required time unbounded. */
  method CountFanouts(tg: TimingGraph, outDeg: array<int>)
    requires tg.Valid() && outDeg.Length == |tg.nodes|
    modifies tg`nodes, outDeg
    ensures |tg.nodes| == |old(tg.nodes)|
    ensures forall v :: 0 <= v < |tg.nodes| ==>
              tg.nodes[v] == old(tg.nodes)[v].(required := Unbounded) && outDeg[v] == |old(tg.nodes)[v].fanouts|
  {
    ghost var before := tg.nodes;
    var n := |tg.nodes|;
    var i := 0;
    while i < n
      invariant 0 <= i <= n == |tg.nodes| && tg.edges == old(tg.edges)
      invariant forall v :: 0 <= v < i ==> outDeg[v] == |before[v].fanouts|
      invariant forall v :: 0 <= v < n ==> tg.nodes[v] == if v < i then before[v].(required := Unbounded) else before[v]
    {
      outDeg[i] := |tg.nodes[i].fanouts|;
      tg.nodes := tg.nodes[i := tg.nodes[i].(required := Unbounded)];
      i := i + 1;
    }
  }

  method RequiredPeriod(tc: Constraints, domain: int) returns (period: real)
    ensures period == EndPeriod(tc, domain)
  {
    var domPeriod := GetClockPeriod(tc, domain);
    period := if domPeriod > 0.0 then domPeriod else tc.defaultPeriod;
  }

  /** Queues the nodes without edges out, and starts them at their periods. */
  method QueueEndpoints(tg: TimingGraph, tc: Constraints, outDeg: array<int>, queue: array<nat>,
                        ghost before: seq<TimingNode>)
    returns (qt: nat)
    requires outDeg as object != queue && outDeg.Length == queue.Length == |tg.nodes| == |before|
    requires forall v :: 0 <= v < |before| ==>
               tg.nodes[v] == before[v].(required := Unbounded) && outDeg[v] == |before[v].fanouts|
    modifies tg`nodes, queue
    ensures |tg.nodes| == |before| && qt <= |before|
    ensures forall v :: 0 <= v < |before| ==> tg.nodes[v] == before[v].(required := StartTime(before[v], tc))
    ensures ZeroesBelow(outDeg[..], |before|, queue[..qt])
  {
    var n := |tg.nodes|;
    qt := 0;
    var i := 0;
    while i < n
      invariant 0 <= qt <= i <= n == |tg.nodes| && tg.edges == old(tg.edges)
      invariant forall v :: 0 <= v < n ==>
        tg.nodes[v] == before[v].(required := if v < i then StartTime(before[v], tc) else Unbounded)
      invariant ZeroesBelow(outDeg[..], i, queue[..qt])
    {
      ghost var q := queue[..qt];
      ZeroesNext(outDeg[..], i, q);
      if outDeg[i] == 0 {
        var period := RequiredPeriod(tc, tg.nodes[i].clkDomain);
        tg.nodes := tg.nodes[i := tg.nodes[i].(required := At(period))];
        queue[qt] := i;
        qt := qt + 1;
        assert queue[..qt] == q + [i];
      }
      i := i + 1;
    }
  }

  lemma EndsPropagated(before: seq<TimingNode>, nodes: seq<TimingNode>, edges: seq<TimingEdge>, tc: Constraints,
                       deg: seq<int>, q: seq<nat>)
    requires Wired(before, edges) && |nodes| == |before| == |deg|
    requires forall v :: 0 <= v < |nodes| ==> nodes[v] == before[v].(required := StartTime(before[v], tc))
    requires forall v :: 0 <= v < |nodes| ==> deg[v] == |before[v].fanouts|
    requires ZeroesBelow(deg, |deg|, q)
    ensures Wired(nodes, edges)
    ensures Propagated(Flipped(edges), |nodes|, StartRequired(nodes, tc), Backward(deg, q, nodes), {})
  {
    SameGraphWired(before, nodes, edges);
    forall v: nat | v < |nodes|
      ensures deg[v] == |EdgesInto(Flipped(edges), v)|
              && (before[v].fanouts == [] <==> EdgesInto(Flipped(edges), v) == {})
    {
      FanoutCount(before, edges, v);
    }
    assert NegRequired(nodes) == StartRequired(nodes, tc);
    StartPropagated(Flipped(edges), |nodes|, StartRequired(nodes, tc), Backward(deg, q, nodes));
  }

  /** On any graph, cyclic or not, an endpoint is required by the positive period of its domain, else by the default. */
  ghost predicate EndpointsDue(nodes: seq<TimingNode>, edges: seq<TimingEdge>, tc: Constraints) {
    forall t: nat :: t < |nodes| && IsEndpoint(edges, t) ==>
      var d := nodes[t].clkDomain;
      nodes[t].required == At(if 0 <= d < |tc.clockPeriods| && tc.clockPeriods[d] > 0.0 then tc.clockPeriods[d]
                              else tc.defaultPeriod)
  }

  /** No edge leads out of an endpoint, so nothing tightens it. */
  lemma {:induction false} EndpointsKeepPeriods(nodes: seq<TimingNode>, edges: seq<TimingEdge>, tc: Constraints,
                                                init: seq<Ext>, s: Kahn, R: set<nat>)
    requires Wired(nodes, edges) && init == StartRequired(nodes, tc) && s.val == NegRequired(nodes)
    requires Propagated(Flipped(edges), |nodes|, init, s, R)
    ensures EndpointsDue(nodes, edges, tc)
  {
    forall t: nat | t < |nodes| && IsEndpoint(edges, t)
      ensures nodes[t].required == At(EndPeriod(tc, nodes[t].clkDomain))
    {
      assert ValuedAt(Flipped(edges), |nodes|, init, s, R, t);
      FanoutCount(nodes, edges, t);
    }
  }

  /**
   Required times in reverse topological order. On a graph without cycles every node ends
   with its tightest requirement over all paths to endpoints.
   */
  method ComputeRequired(tg: TimingGraph, tc: Constraints) returns (ret: int)
    requires tg.Valid()
    modifies tg`nodes
    ensures tg.Valid() && OnlyRequired(old(tg.nodes), tg.nodes) && ret == 0
    ensures Acyclic(tg.edges) ==> forall v: nat :: v < |tg.nodes| ==>
              tg.nodes[v].required.At? && TightestRequired(tg.nodes, tg.edges, tc, v, tg.nodes[v].required.value)
    ensures EndpointsDue(tg.nodes, tg.edges, tc)
  {
    var n := |tg.nodes|;
    ghost var before := tg.nodes;
    ghost var F := Flipped(tg.edges);
    var outDeg := new int[n];
    var queue := new nat[n];
    var qh := 0;
    var qt := SeedBackward(tg, tc, outDeg, queue);
    ghost var init := StartRequired(tg.nodes, tc);
    ghost var R: set<nat> := {};
    assert queue[..0] == [];
    while qh < qt
      invariant 0 <= qh <= qt <= n && tg.edges == old(tg.edges)
      invariant tg.Valid() && OnlyRequired(before, tg.nodes)
      invariant Propagated(F, n, init, Backward(outDeg[..], queue[..qt], tg.nodes), R)
      invariant OutOf(F, queue[..qh], R)
      decreases n - qh
    {
      qt, R := RelaxFanins(tg, outDeg, queue, qh, qt, init, R);
      qh := qh + 1;
    }
    OnlyRequiredSame(before, tg.nodes, tg.edges, tc);
    EndpointsKeepPeriods(tg.nodes, tg.edges, tc, init, Backward(outDeg[..], queue[..qt], tg.nodes), R);
    if Acyclic(tg.edges) {
      RequiredAttained(tg.nodes, tg.edges, tc, init, Backward(outDeg[..], queue[..qt], tg.nodes), R);
    }
    return 0;
  }

  // ---------------------------------------------------------------- from flipped paths to requirements

  /** Without cycles, going forward from any node ends at an endpoint. */
  lemma {:induction false} ReachesEndpoint(edges: seq<TimingEdge>, n: nat, p: seq<nat>, v: nat, u: nat)
    returns (q: seq<nat>, t: nat)
    requires EdgesInRange(edges, n) && Acyclic(edges) && u < n && PathFromTo(edges, p, v, u) && |p| <= n
    ensures t < n && IsEndpoint(edges, t) && PathFromTo(edges, q, v, t)
    decreases n - |p|
  {
    if IsEndpoint(edges, u) {
      q, t := p, u;
    } else {
      var e :| 0 <= e < |edges| && edges[e].from == u;
      var r := p + [e];
      assert r[..|r| - 1] == p;
      if |r| > n {
        LongPathHasCycle(edges, n, r, v, edges[e].to);
      }
      q, t := ReachesEndpoint(edges, n, r, v, edges[e].to);
    }
  }

  lemma RequiredAttained(nodes: seq<TimingNode>, edges: seq<TimingEdge>, tc: Constraints,
                         init: seq<Ext>, s: Kahn, R: set<nat>)
    requires Wired(nodes, edges) && Acyclic(edges) && init == StartRequired(nodes, tc)
    requires Propagated(Flipped(edges), |nodes|, init, s, R) && OutOf(Flipped(edges), s.queue, R)
    requires s.val == NegRequired(nodes)
    ensures forall v: nat :: v < |nodes| ==>
              nodes[v].required.At? && TightestRequired(nodes, edges, tc, v, nodes[v].required.value)
  {
    FlippedAcyclic(edges);
    AllQueuedIffAcyclic(Flipped(edges), |nodes|, init, s, R);
    FinishedIsLongest(Flipped(edges), |nodes|, init, s, R);
    forall v: nat | v < |nodes|
      ensures nodes[v].required.At? && TightestRequired(nodes, edges, tc, v, nodes[v].required.value)
    {
      FlippedLongestIsTightest(nodes, edges, tc, v, s.val[v]);
    }
  }

  lemma PathBelowRequired(nodes: seq<TimingNode>, edges: seq<TimingEdge>, tc: Constraints, v: nat, x: Ext,
                          p: seq<nat>, t: nat)
    requires Wired(nodes, edges) && v < |nodes| && LongestTo(Flipped(edges), StartRequired(nodes, tc), v, x)
    requires t < |nodes| && IsEndpoint(edges, t) && PathFromTo(edges, p, v, t)
    ensures x.Fin? && -x.value <= EndPeriod(tc, nodes[t].clkDomain) - Delay(edges, p)
  {
    FanoutCount(nodes, edges, t);
    FlipPath(edges, p, v, t);
    var init := StartRequired(nodes, tc);
    assert AtMost(Plus(init[t], Delay(Flipped(edges), Backwards(p))), x);
  }

  lemma FlippedLongestIsTightest(nodes: seq<TimingNode>, edges: seq<TimingEdge>, tc: Constraints, v: nat, x: Ext)
    requires Wired(nodes, edges) && Acyclic(edges) && v < |nodes|
    requires LongestTo(Flipped(edges), StartRequired(nodes, tc), v, x)
    ensures x.Fin? && TightestRequired(nodes, edges, tc, v, -x.value)
  {
    assert PathFromTo(edges, [], v, v);
    var q, t := ReachesEndpoint(edges, |nodes|, [], v, v);
    PathBelowRequired(nodes, edges, tc, v, x, q, t);
    forall p, t: nat | t < |nodes| && IsEndpoint(edges, t) && PathFromTo(edges, p, v, t)
      ensures -x.value <= EndPeriod(tc, nodes[t].clkDomain) - Delay(edges, p)
    {
      PathBelowRequired(nodes, edges, tc, v, x, p, t);
    }
    var init := StartRequired(nodes, tc);
    var r, u: nat :| u < |init| && PathFromTo(Flipped(edges), r, u, v) && x == Plus(init[u], Delay(Flipped(edges), r));
    FanoutCount(nodes, edges, u);
    FlipPath(Flipped(edges), r, u, v);
    FlipTwice(edges);
    assert PathFromTo(edges, Backwards(r), v, u) && IsEndpoint(edges, u);
    assert -x.value == EndPeriod(tc, nodes[u].clkDomain) - Delay(edges, Backwards(r));
  }
}
