/**
 Walks, reachability and breadth-first search over adjacency lists.

 The first half is the reference: what it means for one node to reach another and
 what the least number of hops is. The second half is the state of the maze router's
 queue discipline, one entry expanded at a time, and the proof that it computes the
 reference.
 */
module GraphSearch {

  type Adjacency = seq<seq<nat>>

  ghost predicate InRange(adj: Adjacency) {
    forall u, k :: 0 <= u < |adj| && 0 <= k < |adj[u]| ==> adj[u][k] < |adj|
  }

  // ---------------------------------------------------------------- reference

  ghost predicate Walk(adj: Adjacency, p: seq<nat>) {
    && |p| > 0
    && (forall i :: 0 <= i < |p| ==> p[i] < |adj|)
    && (forall i :: 0 < i < |p| ==> p[i] in adj[p[i - 1]])
  }

  ghost predicate WalkFromTo(adj: Adjacency, p: seq<nat>, s: nat, t: nat) {
    Walk(adj, p) && p[0] == s && p[|p| - 1] == t
  }

  ghost predicate Reaches(adj: Adjacency, s: nat, t: nat) {
    exists p :: WalkFromTo(adj, p, s, t)
  }

  ghost predicate Simple(p: seq<nat>) {
    forall i, j :: 0 <= i < j < |p| ==> p[i] != p[j]
  }

  /** `p` joins s to t and no walk that does so has fewer hops. */
  ghost predicate ShortestWalk(adj: Adjacency, p: seq<nat>, s: nat, t: nat) {
    && WalkFromTo(adj, p, s, t)
    && forall q :: WalkFromTo(adj, q, s, t) ==> |p| <= |q|
  }

  /** The last `cap` entries of `p`, or all of it when it is no longer than that. */
  function Last(p: seq<nat>, cap: nat): seq<nat> {
    if |p| <= cap then p else p[|p| - cap..]
  }

  // ---------------------------------------------------------------- search state

  /** Distance (-1 when unseen), predecessor (-1 when none) and every node ever queued. */
  datatype Bfs = Bfs(dist: seq<int>, prev: seq<int>, queue: seq<nat>)

  ghost predicate Shaped(adj: Adjacency, s: Bfs) {
    && |s.dist| == |adj| && |s.prev| == |adj|
    && forall i :: 0 <= i < |s.queue| ==> s.queue[i] < |adj|
  }

  function Start(n: nat, src: nat): Bfs
    requires src < n
  {
    Bfs(seq(n, _ => -1)[src := 0], seq(n, _ => -1), [src])
  }

  function Visit(s: Bfs, u: nat, v: nat): Bfs
    requires u < |s.dist| && v < |s.dist| && |s.prev| == |s.dist|
  {
    if s.dist[v] < 0 then Bfs(s.dist[v := s.dist[u] + 1], s.prev[v := u], s.queue + [v]) else s
  }

  function Scan(s: Bfs, u: nat, nbrs: seq<nat>): (r: Bfs)
    requires u < |s.dist| && |s.prev| == |s.dist|
    requires forall k :: 0 <= k < |nbrs| ==> nbrs[k] < |s.dist|
    ensures |r.dist| == |s.dist| && |r.prev| == |s.prev|
  {
    if nbrs == [] then s
    else Visit(Scan(s, u, nbrs[..|nbrs| - 1]), u, nbrs[|nbrs| - 1])
  }

  /** The state once the first `h` queue entries have been expanded. */
  ghost function After(adj: Adjacency, src: nat, h: nat): (r: Bfs)
    requires InRange(adj) && src < |adj|
    ensures |r.dist| == |adj| && |r.prev| == |adj|
  {
    if h == 0 then Start(|adj|, src)
    else
      var s := After(adj, src, h - 1);
      if h - 1 < |s.queue| && s.queue[h - 1] < |adj|
      then Scan(s, s.queue[h - 1], adj[s.queue[h - 1]]) else s
  }

  ghost predicate Seen(s: Bfs, v: nat) {
    v < |s.dist| && s.dist[v] >= 0
  }

  /** Queue entries are the seen nodes, once each, in order of distance. */
  ghost predicate Queued(adj: Adjacency, src: nat, s: Bfs) {
    && Shaped(adj, s) && |s.queue| > 0 && s.queue[0] == src
    && Simple(s.queue)
    && (forall v :: 0 <= v < |adj| ==> (s.dist[v] >= 0 <==> v in s.queue))
    && (forall i, j :: 0 <= i < j < |s.queue| ==> s.dist[s.queue[i]] <= s.dist[s.queue[j]])
  }

  /** `v` was first seen from a neighbour one hop nearer. */
  ghost predicate LinkedAt(adj: Adjacency, s: Bfs, v: nat)
    requires Shaped(adj, s) && v < |adj|
  {
    && 0 <= s.prev[v] < |adj|
    && s.dist[s.prev[v]] >= 0 && s.dist[v] == s.dist[s.prev[v]] + 1
    && v in adj[s.prev[v]]
  }

  /** Every seen node but the source is so linked. */
  ghost predicate Linked(adj: Adjacency, src: nat, s: Bfs)
    requires Shaped(adj, s)
  {
    && src < |adj| && s.dist[src] == 0 && s.prev[src] == -1
    && forall v {:trigger LinkedAt(adj, s, v)} ::
         0 <= v < |adj| && s.dist[v] >= 0 && v != src ==> LinkedAt(adj, s, v)
  }

  /** The queue reaches at most one level past entry `h`. */
  ghost predicate Frontier(s: Bfs, adj: Adjacency, h: nat)
    requires Shaped(adj, s)
  {
    h < |s.queue| ==>
      forall j :: 0 <= j < |s.queue| ==> s.dist[s.queue[j]] <= s.dist[s.queue[h]] + 1
  }

  /** Neighbours of the first `h` entries are seen, at most one hop further. */
  ghost predicate Expanded(adj: Adjacency, s: Bfs, h: nat)
    requires Shaped(adj, s)
  {
    h <= |s.queue| &&
    forall i, k :: 0 <= i < h && 0 <= k < |adj[s.queue[i]]| && adj[s.queue[i]][k] < |adj| ==>
      0 <= s.dist[adj[s.queue[i]][k]] <= s.dist[s.queue[i]] + 1
  }

  ghost predicate BfsInv(adj: Adjacency, src: nat, s: Bfs, h: nat) {
    && Queued(adj, src, s) && Linked(adj, src, s)
    && Frontier(s, adj, h) && Expanded(adj, s, h)
  }

  lemma StartInv(adj: Adjacency, src: nat)
    requires InRange(adj) && src < |adj|
    ensures BfsInv(adj, src, Start(|adj|, src), 0)
  {
  }

  /** `t` extends `s`: entries keep their place and seen nodes keep their labels. */
  ghost predicate Extends(s: Bfs, t: Bfs) {
    && s.queue <= t.queue && |t.dist| == |s.dist| && |t.prev| == |s.prev|
    && |s.prev| == |s.dist|
    && forall w :: 0 <= w < |s.dist| && s.dist[w] >= 0 ==> t.dist[w] == s.dist[w] && t.prev[w] == s.prev[w]
  }

  lemma {:induction false} VisitQueued(adj: Adjacency, src: nat, s: Bfs, h: nat, v: nat)
    requires BfsInv(adj, src, s, h) && h < |s.queue| && v < |adj| && s.dist[v] < 0
    ensures Queued(adj, src, Visit(s, s.queue[h], v))
  {
    var u := s.queue[h];
    var t := Visit(s, u, v);
    assert u in s.queue;
    forall i | 0 <= i < |s.queue| ensures s.queue[i] != v {
      assert s.queue[i] in s.queue;
    }
    forall w | 0 <= w < |adj| ensures t.dist[w] >= 0 <==> w in t.queue {
      assert w in t.queue <==> w in s.queue || w == v;
    }
  }

  lemma VisitLinked(adj: Adjacency, src: nat, s: Bfs, h: nat, v: nat)
    requires BfsInv(adj, src, s, h) && h < |s.queue| && v < |adj| && s.dist[v] < 0
    requires v in adj[s.queue[h]]
    ensures Linked(adj, src, Visit(s, s.queue[h], v))
  {
    var t := Visit(s, s.queue[h], v);
    assert s.queue[h] in s.queue;
    forall w | 0 <= w < |adj| && t.dist[w] >= 0 && w != src ensures LinkedAt(adj, t, w) {
      if w != v {
        assert LinkedAt(adj, s, w);
      }
    }
  }

  lemma {:induction false} VisitExpanded(adj: Adjacency, src: nat, s: Bfs, h: nat, v: nat)
    requires BfsInv(adj, src, s, h) && h < |s.queue| && v < |adj| && s.dist[v] < 0
    ensures var t := Visit(s, s.queue[h], v);
            Shaped(adj, t) && Expanded(adj, t, h) && Frontier(t, adj, h)
  {
    var t := Visit(s, s.queue[h], v);
    assert s.queue[h] in s.queue;
    forall j | 0 <= j < |t.queue| ensures t.dist[t.queue[j]] <= t.dist[t.queue[h]] + 1 {
      if j < |s.queue| { assert s.queue[j] in s.queue; }
    }
    forall i, k | 0 <= i < h && 0 <= k < |adj[t.queue[i]]| && adj[t.queue[i]][k] < |adj|
      ensures 0 <= t.dist[adj[t.queue[i]][k]] <= t.dist[t.queue[i]] + 1
    {
      assert s.queue[i] in s.queue;
      assert 0 <= s.dist[adj[s.queue[i]][k]];
    }
  }

  lemma VisitInv(adj: Adjacency, src: nat, s: Bfs, h: nat, v: nat)
    requires BfsInv(adj, src, s, h) && h < |s.queue| && v < |adj|
    requires v in adj[s.queue[h]]
    ensures var t := Visit(s, s.queue[h], v);
            BfsInv(adj, src, t, h) && Extends(s, t) && 0 <= t.dist[v] <= s.dist[s.queue[h]] + 1
  {
    assert s.queue[h] in s.queue;
    if s.dist[v] < 0 {
      VisitQueued(adj, src, s, h, v);
      VisitLinked(adj, src, s, h, v);
      VisitExpanded(adj, src, s, h, v);
    } else {
      assert v in s.queue;
    }
  }

  /** The first `k` neighbours of `u` are seen, at most one hop further than `u`. */
  ghost predicate SeenFrom(adj: Adjacency, s: Bfs, u: nat, k: nat)
    requires u < |adj| && k <= |adj[u]| && |s.dist| == |adj|
  {
    forall i :: 0 <= i < k && adj[u][i] < |adj| ==> 0 <= s.dist[adj[u][i]] <= s.dist[u] + 1
  }

  /** `t` comes from `s` by scanning the first `k` neighbours of entry `h`. */
  ghost predicate Scanned(adj: Adjacency, src: nat, s: Bfs, h: nat, k: nat, t: Bfs)
    requires h < |s.queue| && s.queue[h] < |adj| && k <= |adj[s.queue[h]]|
  {
    BfsInv(adj, src, t, h) && Extends(s, t) && SeenFrom(adj, t, s.queue[h], k)
  }

  /** Scanning a prefix of the neighbours of entry `h` keeps the invariant and sees that prefix. */
  lemma {:induction false} ScanInv(adj: Adjacency, src: nat, s: Bfs, h: nat, k: nat)
    requires InRange(adj) && BfsInv(adj, src, s, h) && h < |s.queue| && k <= |adj[s.queue[h]]|
    ensures Scanned(adj, src, s, h, k, Scan(s, s.queue[h], adj[s.queue[h]][..k]))
    decreases k
  {
    var u := s.queue[h];
    if k == 0 {
      assert Scan(s, u, adj[u][..0]) == s;
    } else {
      ScanInv(adj, src, s, h, k - 1);
      ScanStep(adj, src, s, Scan(s, u, adj[u][..k - 1]), h, k - 1);
      ScanNext(s, u, adj[u], k - 1);
    }
  }

  lemma ScanNext(s: Bfs, u: nat, nbrs: seq<nat>, k: nat)
    requires u < |s.dist| == |s.prev| && k < |nbrs| && forall i :: 0 <= i < |nbrs| ==> nbrs[i] < |s.dist|
    ensures Scan(s, u, nbrs[..k + 1]) == Visit(Scan(s, u, nbrs[..k]), u, nbrs[k])
  {
    assert nbrs[..k + 1][..k] == nbrs[..k];
  }

  lemma ScanStep(adj: Adjacency, src: nat, s: Bfs, m: Bfs, h: nat, k: nat)
    requires InRange(adj) && h < |s.queue| && s.queue[h] < |adj| && k < |adj[s.queue[h]]|
    requires Seen(s, s.queue[h]) && Scanned(adj, src, s, h, k, m)
    ensures Scanned(adj, src, s, h, k + 1, Visit(m, s.queue[h], adj[s.queue[h]][k]))
  {
    var u := s.queue[h];
    VisitInv(adj, src, m, h, adj[u][k]);
    SeenExtends(adj, m, Visit(m, u, adj[u][k]), u, k);
  }

  lemma {:induction false} SeenExtends(adj: Adjacency, s: Bfs, t: Bfs, u: nat, k: nat)
    requires u < |adj| && k <= |adj[u]| && |s.dist| == |adj|
    requires SeenFrom(adj, s, u, k) && Extends(s, t) && s.dist[u] >= 0
    ensures SeenFrom(adj, t, u, k)
  {
    forall i | 0 <= i < k && adj[u][i] < |adj|
      ensures 0 <= t.dist[adj[u][i]] <= t.dist[u] + 1
    {
      assert 0 <= s.dist[adj[u][i]];
    }
  }

  lemma {:induction false} NextEntry(adj: Adjacency, src: nat, t: Bfs, h: nat)
    requires InRange(adj) && BfsInv(adj, src, t, h) && h < |t.queue|
    requires SeenFrom(adj, t, t.queue[h], |adj[t.queue[h]]|)
    ensures BfsInv(adj, src, t, h + 1)
  {
    if h + 1 < |t.queue| {
      assert t.dist[t.queue[h]] <= t.dist[t.queue[h + 1]];
    }
  }

  lemma ExpandInv(adj: Adjacency, src: nat, s: Bfs, h: nat)
    requires InRange(adj) && BfsInv(adj, src, s, h) && h < |s.queue|
    ensures var t := Scan(s, s.queue[h], adj[s.queue[h]]);
            BfsInv(adj, src, t, h + 1) && Extends(s, t)
  {
    var u := s.queue[h];
    ScanInv(adj, src, s, h, |adj[u]|);
    assert adj[u][..|adj[u]|] == adj[u];
    NextEntry(adj, src, Scan(s, u, adj[u]), h);
  }

  lemma {:induction false} AfterInv(adj: Adjacency, src: nat, h: nat)
    requires InRange(adj) && src < |adj| && h <= |After(adj, src, h).queue|
    ensures BfsInv(adj, src, After(adj, src, h), h)
    ensures h > 0 ==> h - 1 < |After(adj, src, h - 1).queue|
    ensures |After(adj, src, h).queue| <= |adj|
  {
    if h == 0 {
      StartInv(adj, src);
    } else {
      assert h - 1 < |After(adj, src, h - 1).queue|;
      AfterInv(adj, src, h - 1);
      AfterNext(adj, src, h - 1);
    }
    QueueFits(adj, src, After(adj, src, h));
  }

  lemma AfterNext(adj: Adjacency, src: nat, h: nat)
    requires InRange(adj) && src < |adj|
    requires BfsInv(adj, src, After(adj, src, h), h) && h < |After(adj, src, h).queue|
    ensures BfsInv(adj, src, After(adj, src, h + 1), h + 1)
    ensures After(adj, src, h).queue <= After(adj, src, h + 1).queue
  {
    ExpandInv(adj, src, After(adj, src, h), h);
  }

  /** Distinct entries in range: the queue never holds more than one entry per node. */
  lemma QueueFits(adj: Adjacency, src: nat, s: Bfs)
    requires Queued(adj, src, s)
    ensures |s.queue| <= |adj|
  {
    DistinctBelow(s.queue, |adj|);
  }

  ghost function Without(q: seq<nat>, i: nat): (r: seq<nat>)
    requires i < |q|
    ensures |r| == |q| - 1 && forall k :: 0 <= k < |r| ==> r[k] == q[if k < i then k else k + 1]
    ensures Simple(q) ==> Simple(r)
  {
    q[..i] + q[i + 1..]
  }

  lemma {:induction false} DistinctBelow(q: seq<nat>, n: nat)
    requires Simple(q) && forall i :: 0 <= i < |q| ==> q[i] < n
    ensures |q| <= n
    decreases n
  {
    if q != [] {
      var first := q[0];
      if n - 1 in q {
        var i :| 0 <= i < |q| && q[i] == n - 1;
        var r := Without(q, i);
        forall k | 0 <= k < |r| ensures r[k] < n - 1 {
          assert q[if k < i then k else k + 1] != q[i];
        }
        DistinctBelow(r, n - 1);
      } else {
        forall k | 0 <= k < |q| ensures q[k] < n - 1 { assert q[k] in q; }
        DistinctBelow(q, n - 1);
      }
    }
  }

  // ---------------------------------------------------------------- predecessor chains

  /** The nodes met by following `prev` back from `v`, source first. */
  ghost function Chain(adj: Adjacency, src: nat, s: Bfs, v: nat): (p: seq<nat>)
    requires Shaped(adj, s) && Linked(adj, src, s) && v < |adj| && s.dist[v] >= 0
    ensures WalkFromTo(adj, p, src, v) && |p| == s.dist[v] + 1
    ensures forall i :: 0 <= i < |p| ==> s.dist[p[i]] == i
    ensures forall i :: 0 < i < |p| ==> s.prev[p[i]] == p[i - 1]
    decreases s.dist[v]
  {
    if v == src then [v] else
      assert LinkedAt(adj, s, v);
      Chain(adj, src, s, s.prev[v]) + [v]
  }

  /** A walk shorter than the level being expanded only meets nodes at their recorded distance. */
  lemma {:induction false} WalkBound(adj: Adjacency, src: nat, s: Bfs, h: nat, p: seq<nat>)
    requires BfsInv(adj, src, s, h) && Walk(adj, p) && p[0] == src
    requires h < |s.queue| ==> |p| - 1 <= s.dist[s.queue[h]]
    ensures 0 <= s.dist[p[|p| - 1]] <= |p| - 1
    decreases |p|
  {
    if |p| > 1 {
      var front := p[..|p| - 1];
      WalkBound(adj, src, s, h, front);
      var w := front[|front| - 1];
      assert w in s.queue;
      var i :| 0 <= i < |s.queue| && s.queue[i] == w;
      assert i < h;
      assert p[|p| - 1] in adj[w];
    }
  }

  /** The search stops at the first entry that is the sink, or when the queue is used up. */
  ghost predicate StopsAt(adj: Adjacency, src: nat, sink: nat, h: nat)
    requires InRange(adj) && src < |adj|
  {
    var s := After(adj, src, h);
    && h <= |s.queue| && (h < |s.queue| ==> s.queue[h] == sink)
    && NoneYet(adj, src, sink, h)
  }

  /** The first `h` queue entries have come and gone, and none of them was the sink. */
  ghost predicate NoneYet(adj: Adjacency, src: nat, sink: nat, h: nat)
    requires InRange(adj) && src < |adj|
  {
    forall k :: 0 <= k < h ==> NotYet(adj, src, sink, k)
  }

  lemma {:induction false} NoneYetNext(adj: Adjacency, src: nat, sink: nat, h: nat, s: Bfs)
    requires InRange(adj) && src < |adj| && NoneYet(adj, src, sink, h)
    requires s == After(adj, src, h) && h < |s.queue| && s.queue[h] != sink
    ensures NoneYet(adj, src, sink, h + 1)
  {
    assert NotYet(adj, src, sink, h);
  }

  ghost predicate NotYet(adj: Adjacency, src: nat, sink: nat, k: nat)
    requires InRange(adj) && src < |adj|
  {
    k < |After(adj, src, k).queue| && After(adj, src, k).queue[k] != sink
  }

  lemma StopIsUnique(adj: Adjacency, src: nat, sink: nat, h: nat, k: nat)
    requires InRange(adj) && src < |adj|
    requires StopsAt(adj, src, sink, h) && StopsAt(adj, src, sink, k)
    ensures h == k
  {
    if h < k {
      var early := NotYet(adj, src, sink, h);
    } else if k < h {
      var early := NotYet(adj, src, sink, k);
    }
  }

  /** Stopping on the sink: the chain back from it is simple and as short as any walk. */
  lemma FoundIsShortest(adj: Adjacency, src: nat, sink: nat, h: nat)
    requires InRange(adj) && src < |adj| && sink < |adj|
    requires StopsAt(adj, src, sink, h) && h < |After(adj, src, h).queue|
    ensures BfsInv(adj, src, After(adj, src, h), h) && After(adj, src, h).dist[sink] >= 0
    ensures var p := Chain(adj, src, After(adj, src, h), sink);
            ShortestWalk(adj, p, src, sink) && Simple(p)
  {
    AfterInv(adj, src, h);
    var s := After(adj, src, h);
    assert sink in s.queue;
    var p := Chain(adj, src, s, sink);
    forall q | WalkFromTo(adj, q, src, sink) ensures |p| <= |q| {
      if |q| < |p| {
        WalkBound(adj, src, s, h, q);
      }
    }
  }

  /** Using up the queue without meeting the sink: no walk reaches it. */
  lemma MissedIsUnreachable(adj: Adjacency, src: nat, sink: nat, h: nat)
    requires InRange(adj) && src < |adj| && sink < |adj|
    requires StopsAt(adj, src, sink, h) && h == |After(adj, src, h).queue|
    ensures !Reaches(adj, src, sink)
  {
    AfterInv(adj, src, h);
    var s := After(adj, src, h);
    if Reaches(adj, src, sink) {
      var p :| WalkFromTo(adj, p, src, sink);
      WalkBound(adj, src, s, h, p);
      assert sink in s.queue;
      var k :| 0 <= k < h && s.queue[k] == sink;
      var early := NotYet(adj, src, sink, k);
      EntryStays(adj, src, k, h);
    }
  }

  /** An entry never moves once queued. */
  lemma {:induction false} EntryStays(adj: Adjacency, src: nat, k: nat, h: nat)
    requires InRange(adj) && src < |adj| && k <= h <= |After(adj, src, h).queue|
    ensures After(adj, src, k).queue <= After(adj, src, h).queue
    decreases h
  {
    if k < h {
      AfterInv(adj, src, h);
      AfterInv(adj, src, h - 1);
      EntryStays(adj, src, k, h - 1);
      AfterNext(adj, src, h - 1);
    }
  }
}
