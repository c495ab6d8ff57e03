/**
 The routing-resource graph of the FPGA fabric, Lee's maze router over it, and the path
 buffer that a route is recorded in.
 */
module RoutingFabric {
  import opened GraphSearch

  const MAX_RR_NODES := 8192
  const MAX_PATH_LEN := 256

  datatype RrNodeType = RrSource | RrSink | RrChanX | RrChanY | RrIpin | RrOpin

  datatype RrNode = RrNode(
    kind: RrNodeType, x: int, y: int, capacity: int, occupancy: int,
    baseCost: real, r: real, c: real, inEdges: seq<nat>, outEdges: seq<nat>)

  function NewNode(kind: RrNodeType, x: int, y: int): RrNode {
    RrNode(kind, x, y, 1, 0, 1.0, 10.0, 0.00000000000001, [], [])
  }

  /** Edges driven by each node. */
  function OutEdges(nodes: seq<RrNode>): Adjacency {
    seq(|nodes|, u requires 0 <= u < |nodes| => nodes[u].outEdges)
  }

  /** Both directions, in the order the maze router tries them. */
  function BothEdges(nodes: seq<RrNode>): Adjacency {
    seq(|nodes|, u requires 0 <= u < |nodes| => nodes[u].outEdges + nodes[u].inEdges)
  }

  /** Every edge end names a node. */
  ghost predicate EndsInRange(nodes: seq<RrNode>) {
    && (forall u, v :: 0 <= u < |nodes| && v in nodes[u].outEdges ==> v < |nodes|)
    && (forall u, v :: 0 <= u < |nodes| && v in nodes[u].inEdges ==> v < |nodes|)
  }

  function Count(s: seq<nat>, x: nat): nat {
    multiset(s)[x]
  }

  /** Each edge is listed once at either end. */
  ghost predicate Mirrored(nodes: seq<RrNode>) {
    && EndsInRange(nodes)
    && (forall u: nat, v: nat :: u < |nodes| && v < |nodes| ==>
          Count(nodes[u].outEdges, v) == Count(nodes[v].inEdges, u))
  }

  class RrGraph {
    var nodes: seq<RrNode>

    ghost predicate Valid() reads this {
      |nodes| <= MAX_RR_NODES && Mirrored(nodes)
    }

    constructor ()
      ensures Valid() && nodes == []
    {
      nodes := [];
    }

    method AddNode(kind: RrNodeType, x: int, y: int) returns (id: int)
      requires Valid()
      modifies this
      ensures Valid()
      ensures |old(nodes)| >= MAX_RR_NODES ==> id == -1 && nodes == old(nodes)
      ensures |old(nodes)| < MAX_RR_NODES ==>
                && id == |old(nodes)|
                && nodes == old(nodes) + [RrNode(kind, x, y, 1, 0, 1.0, 10.0, 0.00000000000001, [], [])]
    {
      if |nodes| >= MAX_RR_NODES {
        return -1;
      }
      id := |nodes|;
      FreshNodeMirrored(nodes, NewNode(kind, x, y));
      nodes := nodes + [NewNode(kind, x, y)];
    }

    method AddEdge(from: nat, to: nat)
      requires Valid() && from < |nodes| && to < |nodes|
      modifies this
      ensures Valid()
      ensures nodes == WithEdge(old(nodes), from, to)
    {
      WithEdgeMirrored(nodes, from, to);
      nodes := nodes[from := nodes[from].(outEdges := nodes[from].outEdges + [to])];
      nodes := nodes[to := nodes[to].(inEdges := nodes[to].inEdges + [from])];
    }
  }

  function WithEdge(nodes: seq<RrNode>, from: nat, to: nat): (r: seq<RrNode>)
    requires from < |nodes| && to < |nodes|
    ensures |r| == |nodes|
    ensures forall u :: 0 <= u < |nodes| ==>
              && r[u] == nodes[u].(outEdges := r[u].outEdges, inEdges := r[u].inEdges)
              && r[u].outEdges == (if u == from then nodes[u].outEdges + [to] else nodes[u].outEdges)
              && r[u].inEdges == (if u == to then nodes[u].inEdges + [from] else nodes[u].inEdges)
  {
    var n1 := nodes[from := nodes[from].(outEdges := nodes[from].outEdges + [to])];
    n1[to := n1[to].(inEdges := n1[to].inEdges + [from])]
  }

  lemma FreshNodeMirrored(nodes: seq<RrNode>, node: RrNode)
    requires Mirrored(nodes) && node.inEdges == [] && node.outEdges == []
    ensures Mirrored(nodes + [node])
  {
    var r := nodes + [node];
    forall u: nat, v: nat | u < |r| && v < |r|
      ensures Count(r[u].outEdges, v) == Count(r[v].inEdges, u)
    {
      if u == |nodes| && v < |nodes| {
        assert u !in r[v].inEdges;
      }
      if v == |nodes| && u < |nodes| {
        assert v !in r[u].outEdges;
      }
    }
  }

  lemma WithEdgeMirrored(nodes: seq<RrNode>, from: nat, to: nat)
    requires Mirrored(nodes) && from < |nodes| && to < |nodes|
    ensures Mirrored(WithEdge(nodes, from, to))
  {
    var r := WithEdge(nodes, from, to);
    WithEdgeInRange(nodes, from, to);
    forall u: nat, v: nat | u < |r| && v < |r|
      ensures Count(r[u].outEdges, v) == Count(r[v].inEdges, u)
    {
      CountAppend(nodes[u].outEdges, to, v);
      CountAppend(nodes[v].inEdges, from, u);
    }
  }

  lemma WithEdgeInRange(nodes: seq<RrNode>, from: nat, to: nat)
    requires EndsInRange(nodes) && from < |nodes| && to < |nodes|
    ensures EndsInRange(WithEdge(nodes, from, to))
  {
  }

  lemma CountAppend(s: seq<nat>, x: nat, y: nat)
    ensures Count(s + [x], y) == Count(s, y) + (if x == y then 1 else 0)
  {
  }

  lemma MirroredInRange(nodes: seq<RrNode>)
    requires Mirrored(nodes)
    ensures InRange(BothEdges(nodes)) && InRange(OutEdges(nodes))
  {
    var both, out := BothEdges(nodes), OutEdges(nodes);
    forall u, k | 0 <= u < |nodes| && 0 <= k < |both[u]| ensures both[u][k] < |nodes| {
      assert both[u][k] in nodes[u].outEdges + nodes[u].inEdges;
    }
    forall u, k | 0 <= u < |nodes| && 0 <= k < |out[u]| ensures out[u][k] < |nodes| {
      assert out[u][k] in nodes[u].outEdges;
    }
  }

  // Because every edge is listed at both ends, a route can be followed either way.

  lemma NeighbourBothWays(nodes: seq<RrNode>, u: nat, v: nat)
    requires Mirrored(nodes) && u < |nodes| && v < |nodes| && v in BothEdges(nodes)[u]
    ensures u in BothEdges(nodes)[v]
  {
    if v in nodes[u].outEdges {
      assert Count(nodes[u].outEdges, v) > 0;
      assert u in multiset(nodes[v].inEdges);
    } else {
      assert v in multiset(nodes[u].inEdges);
      assert Count(nodes[v].outEdges, u) > 0;
      assert u in multiset(nodes[v].outEdges);
    }
  }

  function Reversed(p: seq<nat>): (r: seq<nat>)
    ensures |r| == |p| && forall i :: 0 <= i < |p| ==> r[i] == p[|p| - 1 - i]
  {
    seq(|p|, i requires 0 <= i < |p| => p[|p| - 1 - i])
  }

  lemma {:induction false} RouteReverses(nodes: seq<RrNode>, p: seq<nat>, s: nat, t: nat)
    requires Mirrored(nodes) && WalkFromTo(BothEdges(nodes), p, s, t)
    ensures WalkFromTo(BothEdges(nodes), Reversed(p), t, s)
  {
    var r := Reversed(p);
    forall i | 0 < i < |r| ensures r[i] in BothEdges(nodes)[r[i - 1]] {
      var j := |p| - i;
      assert p[j] in BothEdges(nodes)[p[j - 1]];
      NeighbourBothWays(nodes, p[j - 1], p[j]);
    }
  }

  /** Routing from the sink back to the source succeeds as often, in as many hops. */
  lemma RoutingIsSymmetric(nodes: seq<RrNode>, s: nat, t: nat, p: seq<nat>)
    requires Mirrored(nodes)
    ensures Reaches(BothEdges(nodes), s, t) <==> Reaches(BothEdges(nodes), t, s)
    ensures ShortestWalk(BothEdges(nodes), p, s, t) ==> ShortestWalk(BothEdges(nodes), Reversed(p), t, s)
  {
    var adj := BothEdges(nodes);
    if q :| WalkFromTo(adj, q, s, t) { RouteReverses(nodes, q, s, t); }
    if q :| WalkFromTo(adj, q, t, s) { RouteReverses(nodes, q, t, s); }
    if ShortestWalk(adj, p, s, t) {
      RouteReverses(nodes, p, s, t);
      forall q | WalkFromTo(adj, q, t, s) ensures |p| <= |q| {
        RouteReverses(nodes, q, t, s);
      }
    }
  }

  // ---------------------------------------------------------------- recorded paths

  class RoutingPath {
    const nodes: array<nat>
    var length: nat
    var totalCost: real
    var totalDelay: real

    ghost predicate Valid() reads this {
      nodes.Length == MAX_PATH_LEN && length <= MAX_PATH_LEN
    }

    /** The part of the buffer in use. */
    ghost function Nodes(): seq<nat>
      requires Valid()
      reads this, nodes
    {
      nodes[..length]
    }

    constructor ()
      ensures Valid() && length == 0 && fresh(nodes)
    {
      nodes := new nat[MAX_PATH_LEN](_ => 0);
      length, totalCost, totalDelay := 0, 0.0, 0.0;
    }

    /** Follows the predecessors back from `sink`, at most 256 of them, then reverses them in place. */
    method Backtrace(prev: array<int>, sink: nat, ghost chain: seq<nat>)
      requires Valid() && prev as object != nodes && ChainIn(prev[..], chain)
      requires chain[|chain| - 1] == sink
      modifies this`length, nodes
      ensures Valid() && Nodes() == Last(chain, MAX_PATH_LEN)
    {
      Collect(prev, sink, chain);
      ReverseUsed();
      assert Nodes() == Last(chain, MAX_PATH_LEN);
    }

    method Collect(prev: array<int>, sink: nat, ghost chain: seq<nat>)
      requires Valid() && prev as object != nodes && ChainIn(prev[..], chain)
      requires chain[|chain| - 1] == sink
      modifies this`length, nodes
      ensures Valid() && length == |Last(chain, MAX_PATH_LEN)|
      ensures forall i :: 0 <= i < length ==> nodes[i] == chain[|chain| - 1 - i]
    {
      length := 0;
      var cur: int := sink;
      while cur >= 0 && length < MAX_PATH_LEN
        invariant Valid() && length <= |chain|
        invariant cur == if length < |chain| then chain[|chain| - 1 - length] else -1
        invariant forall i :: 0 <= i < length ==> nodes[i] == chain[|chain| - 1 - i]
        decreases MAX_PATH_LEN - length
      {
        nodes[length] := cur;
        length := length + 1;
        cur := prev[..][cur];
      }
    }

    method ReverseUsed()
      requires Valid()
      modifies nodes
      ensures Nodes() == Reversed(old(Nodes()))
    {
      var i := 0;
      while i < length / 2
        invariant 0 <= i <= length / 2
        invariant forall k :: 0 <= k < i ==> nodes[k] == old(nodes[length - 1 - k])
        invariant forall k :: length - i <= k < length ==> nodes[k] == old(nodes[length - 1 - k])
        invariant forall k :: i <= k < length - i ==> nodes[k] == old(nodes[k])
      {
        var tmp := nodes[i];
        nodes[i] := nodes[length - 1 - i];
        nodes[length - 1 - i] := tmp;
        i := i + 1;
      }
    }
  }

  /** `chain` runs along the predecessors `prev`, from a node that has none. */
  ghost predicate ChainIn(prev: seq<int>, chain: seq<nat>) {
    && |chain| > 0
    && (forall i :: 0 <= i < |chain| ==> chain[i] < |prev|)
    && (forall i :: 0 < i < |chain| ==> prev[chain[i]] == chain[i - 1])
    && prev[chain[0]] == -1
  }

  /** `p` is what the maze router leaves in the path buffer for this pair. */
  ghost predicate Recorded(adj: Adjacency, src: nat, sink: nat, p: seq<nat>)
    requires InRange(adj) && src < |adj| && sink < |adj|
  {
    exists h :: RecordedAt(adj, src, sink, p, h)
  }

  ghost predicate RecordedAt(adj: Adjacency, src: nat, sink: nat, p: seq<nat>, h: nat)
    requires InRange(adj) && src < |adj| && sink < |adj|
  {
    && StopsAt(adj, src, sink, h) && h < |After(adj, src, h).queue|
    && BfsInv(adj, src, After(adj, src, h), h) && After(adj, src, h).dist[sink] >= 0
    && p == Last(Chain(adj, src, After(adj, src, h), sink), MAX_PATH_LEN)
  }

  /** It is the tail of a shortest walk, and the whole of one that has at most 255 hops. */
  lemma RecordedMeaning(adj: Adjacency, src: nat, sink: nat, p: seq<nat>)
    requires InRange(adj) && src < |adj| && sink < |adj| && Recorded(adj, src, sink, p)
    ensures exists w :: ShortestWalk(adj, w, src, sink) && Simple(w) && p == Last(w, MAX_PATH_LEN)
    ensures Simple(p) && |p| <= MAX_PATH_LEN && forall i :: 0 <= i < |p| ==> p[i] < |adj|
  {
    var h :| RecordedAt(adj, src, sink, p, h);
    FoundIsShortest(adj, src, sink, h);
    var w := Chain(adj, src, After(adj, src, h), sink);
    assert ShortestWalk(adj, w, src, sink) && Simple(w) && p == Last(w, MAX_PATH_LEN);
    LastOfSimple(w, MAX_PATH_LEN, |adj|);
  }

  lemma LastOfSimple(w: seq<nat>, cap: nat, n: nat)
    requires Simple(w) && forall i :: 0 <= i < |w| ==> w[i] < n
    ensures var p := Last(w, cap); Simple(p) && |p| <= cap && forall i :: 0 <= i < |p| ==> p[i] < n
  {
  }

  lemma RecordedIsUnique(adj: Adjacency, src: nat, sink: nat, p: seq<nat>, q: seq<nat>)
    requires InRange(adj) && src < |adj| && sink < |adj|
    requires Recorded(adj, src, sink, p) && Recorded(adj, src, sink, q)
    ensures p == q
  {
    var h :| RecordedAt(adj, src, sink, p, h);
    var k :| RecordedAt(adj, src, sink, q, k);
    StopIsUnique(adj, src, sink, h, k);
  }

  /** The recorded path of a connected pair; empty for any other. */
  ghost function PathOf(adj: Adjacency, src: nat, sink: nat): seq<nat>
    requires InRange(adj) && src < |adj| && sink < |adj|
  {
    if exists p :: Recorded(adj, src, sink, p)
    then var p :| Recorded(adj, src, sink, p); p
    else []
  }

  lemma PathOfIs(adj: Adjacency, src: nat, sink: nat, p: seq<nat>)
    requires InRange(adj) && src < |adj| && sink < |adj| && Recorded(adj, src, sink, p)
    ensures PathOf(adj, src, sink) == p
  {
    RecordedIsUnique(adj, src, sink, p, PathOf(adj, src, sink));
  }

  lemma {:induction false} PathOfDisconnected(adj: Adjacency, src: nat, sink: nat)
    requires InRange(adj) && src < |adj| && sink < |adj| && !Reaches(adj, src, sink)
    ensures PathOf(adj, src, sink) == []
  {
    if p :| Recorded(adj, src, sink, p) {
      RecordedMeaning(adj, src, sink, p);
    }
  }

  // ---------------------------------------------------------------- maze routing

  method RouteMazeBfs(g: RrGraph, src: nat, sink: nat, path: RoutingPath) returns (ret: int)
    requires g.Valid() && src < |g.nodes| && sink < |g.nodes| && path.Valid()
    modifies path, path.nodes
    ensures path.Valid() && InRange(BothEdges(g.nodes))
    ensures ret == 0 || ret == -1
    ensures ret == 0 <==> Reaches(BothEdges(g.nodes), src, sink)
    ensures ret == -1 ==> path.length == 0
    ensures ret == 0 ==> Recorded(BothEdges(g.nodes), src, sink, path.Nodes())
    ensures ret == 0 ==> RoutedShortest(BothEdges(g.nodes), src, sink, path.Nodes(), path.totalCost)
    ensures ret == 0 ==> path.totalDelay == path.totalCost * 0.1
  {
    ghost var adj := BothEdges(g.nodes);
    MirroredInRange(g.nodes);
    var n := |g.nodes|;
    var dist := new int[n](_ => -1);
    var prev := new int[n](_ => -1);
    var queue := new nat[n](_ => 0);
    var head, found;
    ghost var s;
    head, found, s := Search(g.nodes, dist, prev, queue, src, sink);
    if !found {
      MissedIsUnreachable(adj, src, sink, head);
      path.length := 0;
      return -1;
    }
    RecordRoute(adj, src, sink, head, dist, prev, path);
    return 0;
  }

  /** Breadth-first search until the sink comes to the head of the queue. */
  method Search(nodes: seq<RrNode>, dist: array<int>, prev: array<int>, queue: array<nat>, src: nat, sink: nat)
    returns (head: nat, found: bool, ghost s: Bfs)
    requires dist != prev && queue as object != dist && queue as object != prev
    requires dist.Length == prev.Length == queue.Length == |nodes|
    requires dist[..] == prev[..] == seq(|nodes|, _ => -1)
    requires InRange(BothEdges(nodes)) && src < |nodes|
    modifies dist, prev, queue
    ensures s == After(BothEdges(nodes), src, head) && dist[..] == s.dist && prev[..] == s.prev
    ensures StopsAt(BothEdges(nodes), src, sink, head)
    ensures found == (head < |s.queue|)
  {
    ghost var adj := BothEdges(nodes);
    s := After(adj, src, 0);
    head := 0;
    var tail := 0;
    dist[src] := 0;
    queue[tail] := src;
    tail := tail + 1;
    assert dist[..] == s.dist && prev[..] == s.prev && queue[..tail] == s.queue;
    found := false;
    while head < tail
      invariant 0 <= head <= tail <= |nodes| && !found
      invariant s == After(adj, src, head)
      invariant dist[..] == s.dist && prev[..] == s.prev && queue[..tail] == s.queue
      invariant NoneYet(adj, src, sink, head)
      decreases |nodes| - head
    {
      assert s.queue[head] == queue[head];
      if queue[head] == sink {
        found := true;
        break;
      }
      NoneYetNext(adj, src, sink, head, s);
      tail, s := Expand(nodes, dist, prev, queue, head, tail, src, s);
      head := head + 1;
    }
  }

  method RecordRoute(ghost adj: Adjacency, ghost src: nat, sink: nat, ghost head: nat,
                     dist: array<int>, prev: array<int>, path: RoutingPath)
    requires path.Valid() && prev as object != path.nodes && dist as object != path.nodes
    requires InRange(adj) && src < |adj| && sink < |adj|
    requires StopsAt(adj, src, sink, head) && head < |After(adj, src, head).queue|
    requires dist[..] == After(adj, src, head).dist && prev[..] == After(adj, src, head).prev
    modifies path, path.nodes
    ensures path.Valid() && Recorded(adj, src, sink, path.Nodes())
    ensures RoutedShortest(adj, src, sink, path.Nodes(), path.totalCost)
    ensures Reaches(adj, src, sink)
    ensures path.totalDelay == path.totalCost * 0.1
  {
    FoundIsShortest(adj, src, sink, head);
    ghost var chain := Chain(adj, src, After(adj, src, head), sink);
    assert ChainIn(prev[..], chain);
    assert dist[..][sink] == |chain| - 1;
    path.Backtrace(prev, sink, chain);
    path.totalCost := dist[sink] as real;
    path.totalDelay := path.totalCost * 0.1;
    assert RecordedAt(adj, src, sink, path.Nodes(), head);
  }

  /** The path buffer holds the tail of a simple shortest walk, and `cost` is its number of hops. */
  ghost predicate RoutedShortest(adj: Adjacency, src: nat, sink: nat, p: seq<nat>, cost: real) {
    exists w :: ShortestWalk(adj, w, src, sink) && Simple(w)
                && cost == (|w| - 1) as real && p == Last(w, MAX_PATH_LEN)
  }

  /** However many of the neighbours in `row` are scanned, the queue still fits one entry per node. */
  ghost predicate RoomFor(row: seq<nat>, s: Bfs, u: nat) {
    && u < |s.dist| == |s.prev|
    && (forall k :: 0 <= k < |row| ==> row[k] < |s.dist|)
    && forall k {:trigger RoomAt(row, s, u, k)} :: 0 <= k <= |row| ==> RoomAt(row, s, u, k)
  }

  ghost predicate RoomAt(row: seq<nat>, s: Bfs, u: nat, k: nat)
    requires u < |s.dist| == |s.prev| && k <= |row|
    requires forall i :: 0 <= i < |row| ==> row[i] < |s.dist|
  {
    |Scan(s, u, row[..k]).queue| <= |s.dist|
  }

  lemma {:induction false} RoomNext(row: seq<nat>, s: Bfs, u: nat, k: nat, now: Bfs) returns (next: Bfs)
    requires RoomFor(row, s, u) && k < |row| && now == Scan(s, u, row[..k])
    ensures |now.dist| == |now.prev| == |s.dist| && next == Visit(now, u, row[k]) == Scan(s, u, row[..k + 1])
    ensures |next.queue| <= |s.dist|
  {
    ScanNext(s, u, row, k);
    assert RoomAt(row, s, u, k + 1);
    next := Scan(s, u, row[..k + 1]);
  }

  lemma RoomAtHead(adj: Adjacency, src: nat, h: nat)
    requires InRange(adj) && src < |adj| && h < |After(adj, src, h).queue|
    ensures After(adj, src, h).queue[h] < |adj|
    ensures RoomFor(adj[After(adj, src, h).queue[h]], After(adj, src, h), After(adj, src, h).queue[h])
  {
    AfterInv(adj, src, h);
    var s := After(adj, src, h);
    var u := s.queue[h];
    forall k | 0 <= k <= |adj[u]| ensures RoomAt(adj[u], s, u, k) {
      ScanInv(adj, src, s, h, k);
      QueueFits(adj, src, Scan(s, u, adj[u][..k]));
    }
  }

  /** Expands queue entry `head`: its fanout first, then its fanin. */
  method Expand(nodes: seq<RrNode>, dist: array<int>, prev: array<int>, queue: array<nat>,
                head: nat, tail: nat, ghost src: nat, ghost s: Bfs)
    returns (tail': nat, ghost next: Bfs)
    requires dist != prev && queue as object != dist && queue as object != prev
    requires dist.Length == prev.Length == queue.Length == |nodes| && head < tail <= |nodes|
    requires InRange(BothEdges(nodes)) && src < |nodes| && s == After(BothEdges(nodes), src, head)
    requires dist[..] == s.dist && prev[..] == s.prev && queue[..tail] == s.queue
    modifies dist, prev, queue
    ensures tail <= tail' <= |nodes| && next == After(BothEdges(nodes), src, head + 1)
    ensures dist[..] == next.dist && prev[..] == next.prev && queue[..tail'] == next.queue
  {
    ghost var adj := BothEdges(nodes);
    RoomAtHead(adj, src, head);
    var u := queue[head];
    assert s.queue[head] == u;
    var nu := nodes[u];
    assert adj[u] == nu.outEdges + nu.inEdges;
    next := Scan(s, u, adj[u]);
    tail' := ExpandNode(nu.outEdges, nu.inEdges, adj[u], dist, prev, queue, tail, u, s);
  }

  method ExpandNode(out: seq<nat>, in': seq<nat>, ghost row: seq<nat>,
                    dist: array<int>, prev: array<int>, queue: array<nat>, tail: nat, u: nat, ghost s: Bfs)
    returns (tail': nat)
    requires dist != prev && queue as object != dist && queue as object != prev
    requires dist.Length == prev.Length == queue.Length && tail <= queue.Length
    requires |row| == |out| + |in'| && (forall i :: 0 <= i < |out| ==> out[i] == row[0 + i])
    requires forall i :: 0 <= i < |in'| ==> in'[i] == row[|out| + i]
    requires RoomFor(row, s, u)
    requires Bfs(dist[..], prev[..], queue[..tail]) == s
    modifies dist, prev, queue
    ensures tail <= tail' <= queue.Length
    ensures Bfs(dist[..], prev[..], queue[..tail']) == Scan(s, u, row)
  {
    assert Scan(s, u, row[..0]) == s;
    tail' := Wave(out, row, 0, dist, prev, queue, tail, u, s);
    tail' := Wave(in', row, |out|, dist, prev, queue, tail', u, s);
    assert row[..|row|] == row;
  }

  /** Labels the unseen nodes of `nbrs`, which are the entries of `row` from `base` on. */
  method Wave(nbrs: seq<nat>, ghost row: seq<nat>, ghost base: nat,
              dist: array<int>, prev: array<int>, queue: array<nat>, tail: nat, u: nat, ghost s: Bfs)
    returns (tail': nat)
    requires dist != prev && queue as object != dist && queue as object != prev
    requires dist.Length == prev.Length == queue.Length == |s.dist| && tail <= queue.Length
    requires RoomFor(row, s, u)
    requires base + |nbrs| <= |row| && forall i :: 0 <= i < |nbrs| ==> nbrs[i] == row[base + i]
    requires Bfs(dist[..], prev[..], queue[..tail]) == Scan(s, u, row[..base])
    modifies dist, prev, queue
    ensures tail <= tail' <= queue.Length
    ensures Bfs(dist[..], prev[..], queue[..tail']) == Scan(s, u, row[..base + |nbrs|])
  {
    tail' := tail;
    ghost var now := Scan(s, u, row[..base]);
    var i := 0;
    while i < |nbrs|
      invariant 0 <= i <= |nbrs| && tail <= tail' <= queue.Length
      invariant now == Scan(s, u, row[..base + i])
      invariant Bfs(dist[..], prev[..], queue[..tail']) == now
    {
      ghost var before := now;
      now := RoomNext(row, s, u, base + i, before);
      tail' := Label(dist, prev, queue, tail', u, nbrs[i], before);
      i := i + 1;
    }
  }

  /** Labels `v` from `u` and queues it, if it is unseen. */
  method Label(dist: array<int>, prev: array<int>, queue: array<nat>, tail: nat, u: nat, v: nat, ghost s: Bfs)
    returns (tail': nat)
    requires dist != prev && queue as object != dist && queue as object != prev
    requires dist.Length == prev.Length == queue.Length && tail <= queue.Length
    requires u < dist.Length && v < dist.Length
    requires Bfs(dist[..], prev[..], queue[..tail]) == s && |Visit(s, u, v).queue| <= queue.Length
    modifies dist, prev, queue
    ensures tail <= tail' <= queue.Length
    ensures Bfs(dist[..], prev[..], queue[..tail']) == Visit(s, u, v)
  {
    tail' := tail;
    if dist[v] < 0 {
      assert s.dist[v] < 0;
      dist[v] := dist[u] + 1;
      prev[v] := u;
      queue[tail'] := v;
      tail' := tail' + 1;
      assert dist[..] == s.dist[v := s.dist[u] + 1];
      assert prev[..] == s.prev[v := u];
      assert queue[..tail'] == s.queue + [v];
    } else {
      assert s.dist[v] >= 0;
    }
  }
}
