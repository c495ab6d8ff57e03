/**
 The PathFinder driver and redundant routing: what they do to node occupancies and to
 the nets' routed flags.
 */
module PathFinder {
  import opened GraphSearch
  import opened RoutingFabric

  datatype Net = Net(sourceNode: nat, sinkNodes: seq<nat>, isRouted: bool)

  /** The router reads the source and the first sink of a net, and asserts that both are nodes. */
  predicate Routable(net: Net, n: nat) {
    |net.sinkNodes| > 0 && net.sourceNode < n && net.sinkNodes[0] < n
  }

  function Occupy(nodes: seq<RrNode>, p: seq<nat>, delta: int): (r: seq<RrNode>)
    ensures |r| == |nodes|
    ensures forall v :: 0 <= v < |nodes| ==>
              r[v] == nodes[v].(occupancy := nodes[v].occupancy + (if v in p then delta else 0))
  {
    seq(|nodes|, v requires 0 <= v < |nodes| =>
      nodes[v].(occupancy := nodes[v].occupancy + (if v in p then delta else 0)))
  }

  /** Occupancy plays no part in the shape of the graph. */
  ghost predicate SameShape(a: seq<RrNode>, b: seq<RrNode>) {
    && |a| == |b|
    && forall v :: 0 <= v < |a| ==> a[v].outEdges == b[v].outEdges && a[v].inEdges == b[v].inEdges
  }

  lemma SameShapeSameEdges(a: seq<RrNode>, b: seq<RrNode>)
    requires SameShape(a, b)
    ensures BothEdges(a) == BothEdges(b) && OutEdges(a) == OutEdges(b)
    ensures Mirrored(a) ==> Mirrored(b)
  {
  }

  /** Adds `delta` to the occupancy of every node on a recorded path. */
  method OccupyPath(g: RrGraph, path: RoutingPath, delta: int)
    requires g.Valid() && path.Valid() && Simple(path.Nodes())
    modifies g
    ensures g.Valid() && g.nodes == Occupy(old(g.nodes), path.Nodes(), delta)
    ensures SameShape(old(g.nodes), g.nodes)
  {
    ghost var before := g.nodes;
    OccupyEach(g, path, delta);
    OccupyKeepsShape(before, path.Nodes(), delta);
  }

  lemma {:induction false} OccupyKeepsShape(nodes: seq<RrNode>, p: seq<nat>, delta: int)
    ensures SameShape(nodes, Occupy(nodes, p, delta))
    ensures Mirrored(nodes) ==> Mirrored(Occupy(nodes, p, delta))
  {
    SameShapeSameEdges(nodes, Occupy(nodes, p, delta));
  }

  method OccupyEach(g: RrGraph, path: RoutingPath, delta: int)
    requires path.Valid() && Simple(path.Nodes())
    modifies g
    ensures g.nodes == Occupy(old(g.nodes), path.Nodes(), delta)
  {
    ghost var before, p := g.nodes, path.Nodes();
    ghost var now := before;
    assert Occupy(before, p[..0], delta) == before;
    var i := 0;
    while i < path.length
      invariant 0 <= i <= path.length && path.Nodes() == p
      invariant now == Occupy(before, p[..i], delta)
      invariant g.nodes == now
    {
      now := OccupyNext(before, p, i, delta, now);
      ChargeNode(g, path.nodes[i], delta);
      i := i + 1;
    }
    assert p[..|p|] == p;
  }

  /** Adds `delta` to the occupancy of node `v`, if there is such a node. */
  method ChargeNode(g: RrGraph, v: nat, delta: int)
    modifies g
    ensures g.nodes == if v < |old(g.nodes)|
                       then old(g.nodes)[v := old(g.nodes)[v].(occupancy := old(g.nodes)[v].occupancy + delta)]
                       else old(g.nodes)
  {
    if v < |g.nodes| {
      g.nodes := g.nodes[v := g.nodes[v].(occupancy := g.nodes[v].occupancy + delta)];
    }
  }

  lemma {:induction false} OccupyNext(nodes: seq<RrNode>, p: seq<nat>, i: nat, delta: int, now: seq<RrNode>)
    returns (next: seq<RrNode>)
    requires Simple(p) && i < |p| && now == Occupy(nodes, p[..i], delta)
    ensures next == Occupy(nodes, p[..i + 1], delta)
    ensures next == if p[i] < |nodes| then now[p[i] := now[p[i]].(occupancy := now[p[i]].occupancy + delta)] else now
  {
    assert p[..i + 1] == p[..i] + [p[i]] && p[i] !in p[..i];
    next := Occupy(nodes, p[..i + 1], delta);
    forall v | 0 <= v < |nodes| && v != p[i] ensures next[v] == now[v] {
      assert v in p[..i + 1] <==> v in p[..i];
    }
  }

  /** Routes one net and, if it can be routed, marks it and charges the nodes of its path. */
  method RouteNetPathfinder(g: RrGraph, nets: array<Net>, i: nat) returns (ret: int)
    requires g.Valid() && i < nets.Length && Routable(nets[i], |g.nodes|)
    modifies g, nets
    ensures g.Valid() && SameShape(old(g.nodes), g.nodes) && InRange(BothEdges(old(g.nodes)))
    ensures ret == 0 || ret == -1
    ensures ret == 0 <==> Reaches(BothEdges(old(g.nodes)), old(nets[i]).sourceNode, old(nets[i]).sinkNodes[0])
    ensures var net := old(nets[i]);
            g.nodes == Occupy(old(g.nodes), PathOf(BothEdges(old(g.nodes)), net.sourceNode, net.sinkNodes[0]), 1)
    ensures nets[..] == if ret == 0 then old(nets[..])[i := old(nets[i]).(isRouted := true)] else old(nets[..])
  {
    var path := new RoutingPath();
    var src, sink := nets[i].sourceNode, nets[i].sinkNodes[0];
    ghost var adj := BothEdges(g.nodes);
    ret := RouteMazeBfs(g, src, sink, path);
    if ret == 0 {
      RecordedMeaning(adj, src, sink, path.Nodes());
      PathOfIs(adj, src, sink, path.Nodes());
      OccupyPath(g, path, 1);
      nets[i] := nets[i].(isRouted := true);
    } else {
      PathOfDisconnected(adj, src, sink);
      assert g.nodes == Occupy(g.nodes, [], 1);
    }
  }

  /** Some node is over its capacity. */
  ghost predicate Congested(nodes: seq<RrNode>) {
    exists v :: 0 <= v < |nodes| && nodes[v].occupancy > nodes[v].capacity
  }

  method PathfinderIsCongested(g: RrGraph) returns (b: bool)
    ensures b <==> Congested(g.nodes)
  {
    var i := 0;
    while i < |g.nodes|
      invariant 0 <= i <= |g.nodes|
      invariant forall v :: 0 <= v < i ==> g.nodes[v].occupancy <= g.nodes[v].capacity
    {
      if g.nodes[i].occupancy > g.nodes[i].capacity {
        return true;
      }
      i := i + 1;
    }
    return false;
  }

  datatype Hist = Hist(cost: real, timesOverused: int)

  class PathfinderState {
    var history: seq<Hist>
    var hasHistory: bool
    var presFac: real
    var presFacMult: real
    var maxIterations: int

    constructor ()
      ensures maxIterations == 50 && !hasHistory && presFac == 0.5 && presFacMult == 1.5
    {
      history, hasHistory := [], false;
      presFac, presFacMult, maxIterations := 0.5, 1.5, 50;
    }

    method UpdateHist()
      modifies this
      ensures maxIterations == old(maxIterations) && presFacMult == old(presFacMult)
      ensures presFac == if hasHistory then old(presFac) * presFacMult else old(presFac)
      ensures hasHistory == old(hasHistory) && |history| == |old(history)|
      ensures hasHistory ==> forall k :: 0 <= k < |history| ==> history[k] == Aged(old(history)[k])
    {
      if !hasHistory {
        return;
      }
      var i := 0;
      while i < |history|
        invariant 0 <= i <= |history| == |old(history)| && hasHistory
        invariant maxIterations == old(maxIterations) && presFacMult == old(presFacMult) && presFac == old(presFac)
        invariant forall k :: 0 <= k < |history| ==>
                    history[k] == if k < i then Aged(old(history)[k]) else old(history)[k]
      {
        if history[i].timesOverused > 0 {
          history := history[i := history[i].(cost := history[i].cost + history[i].timesOverused as real)];
        }
        i := i + 1;
      }
      presFac := presFac * presFacMult;
    }

    /** History and present factor are what they were at `k` congested passes before. */
    ghost predicate AdaptedFrom(before: seq<Hist>, factor: real, mult: real, k: nat) reads this {
      presFacMult == mult && presFac == Raised(factor, mult, k) && HistoryAfter(before, history, k)
    }

    method Adapt(ghost before: seq<Hist>, ghost factor: real, ghost mult: real, ghost k: nat)
      requires hasHistory && AdaptedFrom(before, factor, mult, k)
      modifies this
      ensures hasHistory && AdaptedFrom(before, factor, mult, k + 1) && maxIterations == old(maxIterations)
    {
      ghost var was := history;
      UpdateHist();
      AgedOnce(before, was, history, k);
    }
  }

  function Aged(h: Hist): Hist {
    if h.timesOverused > 0 then h.(cost := h.cost + h.timesOverused as real) else h
  }

  /** An entry after `k` passes that leave congestion behind: the overuse counts themselves are never raised. */
  function AgedTimes(h: Hist, k: nat): Hist {
    if k == 0 then h else Aged(AgedTimes(h, k - 1))
  }

  lemma {:induction false} AgedTimesIs(h: Hist, k: nat)
    ensures AgedTimes(h, k).timesOverused == h.timesOverused
    ensures AgedTimes(h, k).cost == h.cost + if h.timesOverused > 0 then (k * h.timesOverused) as real else 0.0
  {
    if k > 0 {
      AgedTimesIs(h, k - 1);
      assert k * h.timesOverused == (k - 1) * h.timesOverused + h.timesOverused;
    }
  }

  /** The present factor after `k` such passes. */
  function Raised(f: real, mult: real, k: nat): real {
    if k == 0 then f else Raised(f, mult, k - 1) * mult
  }

  /** `after` is the history once it has aged `k` times. */
  ghost predicate HistoryAfter(before: seq<Hist>, after: seq<Hist>, k: nat) {
    |after| == |before| && forall i :: 0 <= i < |after| ==> after[i] == AgedTimes(before[i], k)
  }

  ghost predicate AllRoutable(nets: seq<Net>, n: nat) {
    forall i :: 0 <= i < |nets| ==> Routable(nets[i], n)
  }

  /** The path a net is given by the driver: none if it came in already routed or cannot be routed. */
  ghost function NewPath(adj: Adjacency, net: Net): seq<nat>
    requires InRange(adj) && Routable(net, |adj|)
  {
    if net.isRouted then [] else PathOf(adj, net.sourceNode, net.sinkNodes[0])
  }

  /** How many of the first `k` nets are given a path through node `v`. */
  ghost function Visits(adj: Adjacency, nets: seq<Net>, k: nat, v: nat): nat
    requires InRange(adj) && k <= |nets| && AllRoutable(nets, |adj|)
  {
    if k == 0 then 0
    else Visits(adj, nets, k - 1, v) + (if v in NewPath(adj, nets[k - 1]) then 1 else 0)
  }

  /** The nodes once the first `k` nets have been given their paths. */
  ghost function Charged(nodes: seq<RrNode>, adj: Adjacency, nets: seq<Net>, k: nat): (r: seq<RrNode>)
    requires InRange(adj) && k <= |nets| && AllRoutable(nets, |adj|)
    ensures |r| == |nodes|
  {
    if k == 0 then nodes else Occupy(Charged(nodes, adj, nets, k - 1), NewPath(adj, nets[k - 1]), 1)
  }

  /** Each node's occupancy grows by the number of nets routed through it; nothing else changes. */
  lemma {:induction false} ChargedAdds(nodes: seq<RrNode>, adj: Adjacency, nets: seq<Net>, k: nat, v: nat)
    requires InRange(adj) && k <= |nets| && AllRoutable(nets, |adj|) && v < |nodes|
    ensures Charged(nodes, adj, nets, k)[v] == nodes[v].(occupancy := nodes[v].occupancy + Visits(adj, nets, k, v))
  {
    if k > 0 {
      ChargedAdds(nodes, adj, nets, k - 1, v);
      ChargedOnce(Charged(nodes, adj, nets, k - 1), NewPath(adj, nets[k - 1]), v, nodes[v],
                  Visits(adj, nets, k - 1, v));
    }
  }

  lemma {:induction false} ChargedOnce(nodes: seq<RrNode>, p: seq<nat>, v: nat, was: RrNode, visits: nat)
    requires v < |nodes| && nodes[v] == was.(occupancy := was.occupancy + visits)
    ensures Occupy(nodes, p, 1)[v] == was.(occupancy := was.occupancy + visits + if v in p then 1 else 0)
  {
  }

  lemma ChargedSameShape(nodes: seq<RrNode>, adj: Adjacency, nets: seq<Net>, k: nat)
    requires InRange(adj) && k <= |nets| && AllRoutable(nets, |adj|)
    ensures SameShape(nodes, Charged(nodes, adj, nets, k))
  {
    forall v: nat | v < |nodes|
      ensures Charged(nodes, adj, nets, k)[v].outEdges == nodes[v].outEdges
           && Charged(nodes, adj, nets, k)[v].inEdges == nodes[v].inEdges
    {
      ChargedAdds(nodes, adj, nets, k, v);
    }
  }

  /** Routed on arrival, or joined to its first sink. */
  ghost predicate EndsRouted(adj: Adjacency, net: Net)
    requires Routable(net, |adj|)
  {
    net.isRouted || Reaches(adj, net.sourceNode, net.sinkNodes[0])
  }

  /** The nets once the first `k` have been decided. */
  ghost function Marked(adj: Adjacency, nets: seq<Net>, k: nat): (r: seq<Net>)
    requires k <= |nets| && AllRoutable(nets, |adj|)
    ensures |r| == |nets|
  {
    if k == 0 then nets
    else Marked(adj, nets, k - 1)[k - 1 := nets[k - 1].(isRouted := EndsRouted(adj, nets[k - 1]))]
  }

  lemma {:induction false} MarkedAt(adj: Adjacency, nets: seq<Net>, k: nat, i: nat)
    requires k <= |nets| && AllRoutable(nets, |adj|) && i < |nets|
    ensures Marked(adj, nets, k)[i] == if i < k then nets[i].(isRouted := EndsRouted(adj, nets[i])) else nets[i]
  {
    if k > 0 { MarkedAt(adj, nets, k - 1, i); }
  }

  ghost function CountRouted(nets: seq<Net>): nat {
    if nets == [] then 0 else CountRouted(nets[..|nets| - 1]) + (if nets[|nets| - 1].isRouted then 1 else 0)
  }

  /** Nodes and nets are as they stand once the first `k` nets have been decided. */
  ghost predicate Decided(nodes: seq<RrNode>, nets: seq<Net>, before: seq<RrNode>, given: seq<Net>, k: nat)
    requires InRange(BothEdges(before)) && AllRoutable(given, |before|) && k <= |given|
  {
    && nodes == Charged(before, BothEdges(before), given, k)
    && nets == Marked(BothEdges(before), given, k)
  }

  /** What trying net `n` does to the nodes, and to the nets. */
  ghost function TriedNodes(adj: Adjacency, nodes: seq<RrNode>, net: Net): seq<RrNode>
    requires InRange(adj) && Routable(net, |adj|)
  {
    Occupy(nodes, NewPath(adj, net), 1)
  }

  ghost function TriedNets(adj: Adjacency, nets: seq<Net>, n: nat): seq<Net>
    requires n < |nets| && Routable(nets[n], |adj|)
  {
    nets[n := nets[n].(isRouted := EndsRouted(adj, nets[n]))]
  }

  /** Trying the next undecided net decides it. */
  lemma TryNext(before: seq<RrNode>, given: seq<Net>, n: nat)
    requires InRange(BothEdges(before)) && AllRoutable(given, |before|) && n < |given|
    ensures var adj := BothEdges(before);
            && Marked(adj, given, n)[n] == given[n]
            && TriedNodes(adj, Charged(before, adj, given, n), given[n]) == Charged(before, adj, given, n + 1)
            && TriedNets(adj, Marked(adj, given, n), n) == Marked(adj, given, n + 1)
  {
    MarkedAt(BothEdges(before), given, n, n);
  }

  /** Trying a decided net again changes nothing. */
  lemma TryAgain(before: seq<RrNode>, given: seq<Net>, n: nat)
    requires InRange(BothEdges(before)) && AllRoutable(given, |before|) && n < |given|
    ensures var adj := BothEdges(before);
            var nets := Marked(adj, given, |given|);
            && Routable(nets[n], |adj|)
            && TriedNodes(adj, Charged(before, adj, given, |given|), nets[n]) == Charged(before, adj, given, |given|)
            && TriedNets(adj, nets, n) == nets
  {
    var adj := BothEdges(before);
    MarkedAt(adj, given, |given|, n);
    if !given[n].isRouted && !Reaches(adj, given[n].sourceNode, given[n].sinkNodes[0]) {
      PathOfDisconnected(adj, given[n].sourceNode, given[n].sinkNodes[0]);
    }
    OccupyNone(Charged(before, adj, given, |given|));
  }

  /** How many nets are decided when pass `pass` comes to net `n`. */
  ghost function DecidedBy(pass: nat, n: nat, count: nat): nat {
    if pass == 0 then n else count
  }

  /** The nodes and nets after net `n` has been tried in pass `pass`. */
  lemma {:induction false} TryStep(before: seq<RrNode>, given: seq<Net>, nodes: seq<RrNode>, nets: seq<Net>,
                                   pass: nat, n: nat)
    returns (nodes': seq<RrNode>, nets': seq<Net>)
    requires InRange(BothEdges(before)) && AllRoutable(given, |before|) && n < |given|
    requires Decided(nodes, nets, before, given, DecidedBy(pass, n, |given|))
    ensures |nodes| == |before| && |nets| == |given| && BothEdges(nodes) == BothEdges(before)
            && Routable(nets[n], |nodes|)
    ensures Mirrored(before) ==> Mirrored(nodes')
    ensures nodes' == TriedNodes(BothEdges(before), nodes, nets[n]) && nets' == TriedNets(BothEdges(before), nets, n)
    ensures Decided(nodes', nets', before, given, DecidedBy(pass, n + 1, |given|))
  {
    var adj := BothEdges(before);
    var k := DecidedBy(pass, n, |given|);
    ChargedSameShape(before, adj, given, k);
    SameShapeSameEdges(before, nodes);
    if pass == 0 { TryNext(before, given, n); } else { TryAgain(before, given, n); }
    nodes', nets' := TriedNodes(adj, nodes, nets[n]), TriedNets(adj, nets, n);
    ChargedSameShape(before, adj, given, DecidedBy(pass, n + 1, |given|));
    SameShapeSameEdges(before, nodes');
  }

  /** One pass over the nets, `pass` counting from 0: all the work is done by pass 0. */
  method RoutePass(g: RrGraph, nets: array<Net>, pass: nat, ghost before: seq<RrNode>, ghost given: seq<Net>)
    requires g.Valid() && |given| == nets.Length
    requires InRange(BothEdges(before)) && AllRoutable(given, |before|)
    requires Decided(g.nodes, nets[..], before, given, DecidedBy(pass, 0, |given|))
    modifies g, nets
    ensures g.Valid() && Decided(g.nodes, nets[..], before, given, |given|)
  {
    ghost var nodes', nets' := g.nodes, nets[..];
    var n := 0;
    while n < nets.Length
      invariant 0 <= n <= nets.Length && g.Valid()
      invariant g.nodes == nodes' && nets[..] == nets'
      invariant Decided(nodes', nets', before, given, DecidedBy(pass, n, |given|))
    {
      assert nets'[n] == nets[n];
      nodes', nets' := TryStep(before, given, nodes', nets', pass, n);
      TryNet(g, nets, n);
      n := n + 1;
    }
  }

  /** Routes net `n` unless it is routed already. */
  method TryNet(g: RrGraph, nets: array<Net>, n: nat)
    requires g.Valid() && n < nets.Length && Routable(nets[n], |g.nodes|) && InRange(BothEdges(g.nodes))
    modifies g, nets
    ensures g.Valid()
    ensures g.nodes == TriedNodes(BothEdges(old(g.nodes)), old(g.nodes), old(nets[n]))
    ensures nets[..] == TriedNets(BothEdges(old(g.nodes)), old(nets[..]), n)
  {
    ghost var nets0 := nets[..];
    assert nets0[n] == nets[n];
    if nets[n].isRouted {
      OccupyNone(g.nodes);
    } else {
      var ret := RouteNetPathfinder(g, nets, n);
    }
  }

  lemma OccupyNone(nodes: seq<RrNode>)
    ensures Occupy(nodes, [], 1) == nodes
  {
  }

  /**
   Routes every net, then repeats while some node is over its capacity and passes remain. Since the first pass decides
   every net, congestion either ends the loop at once or lasts for all passes: the costs have then aged that often.
   */
  method RoutePathfinder(g: RrGraph, nets: array<Net>, state: PathfinderState) returns (routed: nat)
    requires g.Valid() && AllRoutable(nets[..], |g.nodes|)
    modifies g, nets, state
    ensures g.Valid() && InRange(BothEdges(old(g.nodes)))
    ensures old(state.maxIterations) > 0 ==>
              && g.nodes == Charged(old(g.nodes), BothEdges(old(g.nodes)), old(nets[..]), nets.Length)
              && nets[..] == Marked(BothEdges(old(g.nodes)), old(nets[..]), nets.Length)
    ensures old(state.maxIterations) <= 0 ==> g.nodes == old(g.nodes) && nets[..] == old(nets[..])
    ensures routed == CountRouted(nets[..])
    ensures state.hasHistory && state.maxIterations == old(state.maxIterations)
    ensures state.AdaptedFrom(
              if old(state.hasHistory) then old(state.history) else seq(|old(g.nodes)|, _ => Hist(0.0, 0)),
              old(state.presFac), old(state.presFacMult),
              if old(state.maxIterations) > 0 && Congested(g.nodes) then old(state.maxIterations) else 0)
  {
    ghost var before, given := g.nodes, nets[..];
    MirroredInRange(before);
    if !state.hasHistory {
      state.history := seq(|g.nodes|, _ => Hist(0.0, 0));
      state.hasHistory := true;
    }
    ghost var congestedPasses := RunPasses(g, nets, state, before, given);
    routed := CountRoutedNets(nets);
  }

  /** The passes, until one leaves no congestion. */
  method RunPasses(g: RrGraph, nets: array<Net>, state: PathfinderState, ghost before: seq<RrNode>,
                   ghost given: seq<Net>)
    returns (ghost congestedPasses: nat)
    requires g.Valid() && |given| == nets.Length && state.hasHistory
    requires InRange(BothEdges(before)) && AllRoutable(given, |before|) && Decided(g.nodes, nets[..], before, given, 0)
    modifies g, nets, state
    ensures g.Valid() && state.hasHistory
    ensures Decided(g.nodes, nets[..], before, given, if old(state.maxIterations) > 0 then |given| else 0)
    ensures state.AdaptedFrom(old(state.history), old(state.presFac), old(state.presFacMult), congestedPasses)
    ensures congestedPasses == if state.maxIterations > 0 && Congested(g.nodes) then state.maxIterations else 0
    ensures state.maxIterations == old(state.maxIterations)
  {
    ghost var history, factor, mult := state.history, state.presFac, state.presFacMult;
    var iteration := 0;
    while iteration < state.maxIterations
      invariant 0 <= iteration && g.Valid() && state.hasHistory && state.maxIterations == old(state.maxIterations)
      invariant iteration == 0 || (iteration <= state.maxIterations && Congested(g.nodes))
      invariant Decided(g.nodes, nets[..], before, given, DecidedBy(iteration, 0, |given|))
      invariant state.AdaptedFrom(history, factor, mult, iteration)
      decreases state.maxIterations - iteration
    {
      ghost var was := g.nodes;
      RoutePass(g, nets, iteration, before, given);
      assert iteration > 0 ==> g.nodes == was;
      var congested := PathfinderIsCongested(g);
      if !congested {
        break;
      }
      state.Adapt(history, factor, mult, iteration);
      iteration := iteration + 1;
    }
    congestedPasses := iteration;
  }

  lemma {:induction false} AgedOnce(start: seq<Hist>, before: seq<Hist>, after: seq<Hist>, k: nat)
    requires HistoryAfter(start, before, k) && |after| == |before|
    requires forall i :: 0 <= i < |before| ==> after[i] == Aged(before[i])
    ensures HistoryAfter(start, after, k + 1)
  {
  }

  method CountRoutedNets(nets: array<Net>) returns (routed: nat)
    ensures routed == CountRouted(nets[..])
  {
    routed := 0;
    var n := 0;
    while n < nets.Length
      invariant 0 <= n <= nets.Length && routed == CountRouted(nets[..n])
    {
      assert nets[..n + 1][..n] == nets[..n];
      if nets[n].isRouted {
        routed := routed + 1;
      }
      n := n + 1;
    }
    assert nets[..nets.Length] == nets[..];
  }

  /** How many nets have their source joined to their first sink. */
  ghost function CountConnected(adj: Adjacency, nets: seq<Net>): nat
    requires AllRoutable(nets, |adj|)
  {
    if nets == [] then 0
    else CountConnected(adj, nets[..|nets| - 1])
         + (if Reaches(adj, nets[|nets| - 1].sourceNode, nets[|nets| - 1].sinkNodes[0]) then 1 else 0)
  }

  /** Starting unrouted, what the driver returns is the number of connected nets. */
  lemma {:induction false} ReturnsConnected(adj: Adjacency, nets: seq<Net>)
    requires AllRoutable(nets, |adj|) && forall i :: 0 <= i < |nets| ==> !nets[i].isRouted
    ensures CountRouted(Marked(adj, nets, |nets|)) == CountConnected(adj, nets)
  {
    if nets != [] {
      var front := nets[..|nets| - 1];
      ReturnsConnected(adj, front);
      var all, some := Marked(adj, nets, |nets|), Marked(adj, front, |front|);
      forall i: nat | i < |front| ensures all[i] == some[i] {
        MarkedAt(adj, nets, |nets|, i);
        MarkedAt(adj, front, |front|, i);
      }
      assert all[..|nets| - 1] == some;
      MarkedAt(adj, nets, |nets|, |front|);
    }
  }

  /** Charging a path and taking the charge back leaves every node as it was. */
  lemma {:induction false} OccupyUndone(nodes: seq<RrNode>, p: seq<nat>)
    ensures Occupy(Occupy(nodes, p, 1), p, -1) == nodes
  {
    var r := Occupy(Occupy(nodes, p, 1), p, -1);
    forall v | 0 <= v < |nodes| ensures r[v] == nodes[v] {
    }
  }

  /**
   Routes a primary and a backup path. All occupancies come back as they were; and since
   the maze router never looks at them, the backup is the primary again.
   */
  method RouteWithRedundancy(g: RrGraph, net: Net, primary: RoutingPath, backup: RoutingPath) returns (ret: int)
    requires g.Valid() && Routable(net, |g.nodes|)
    requires primary.Valid() && backup.Valid() && primary != backup && primary.nodes != backup.nodes
    modifies g, primary, primary.nodes, backup, backup.nodes
    ensures g.nodes == old(g.nodes) && g.Valid() && InRange(BothEdges(g.nodes))
    ensures primary.Valid() && backup.Valid()
    ensures ret == 0 || ret == -1
    ensures ret == 0 <==> Reaches(BothEdges(g.nodes), net.sourceNode, net.sinkNodes[0])
    ensures ret == 0 ==> Recorded(BothEdges(g.nodes), net.sourceNode, net.sinkNodes[0], primary.Nodes())
    ensures backup.Nodes() == primary.Nodes()
  {
    ghost var adj := BothEdges(g.nodes);
    ghost var before := g.nodes;
    var src, sink := net.sourceNode, net.sinkNodes[0];
    primary.length, primary.totalCost, primary.totalDelay := 0, 0.0, 0.0;
    backup.length, backup.totalCost, backup.totalDelay := 0, 0.0, 0.0;
    ret := RouteMazeBfs(g, src, sink, primary);
    if ret < 0 {
      return -1;
    }
    ghost var p := primary.Nodes();
    RecordedMeaning(adj, src, sink, p);
    OccupyPath(g, primary, 1);
    SameShapeSameEdges(before, g.nodes);
    ret := RouteMazeBfs(g, src, sink, backup);
    RecordedIsUnique(adj, src, sink, p, backup.Nodes());
    OccupyPath(g, primary, -1);
    OccupyUndone(before, p);
  }
}
