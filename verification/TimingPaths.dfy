/**
 The reference for static timing: paths through the timing edges, their delays, cycles,
 and worklist propagation in topological order (Kahn's algorithm) with the proof that a
 finished propagation has computed longest path delays.
 */
module TimingPaths {
  import opened GraphSearch

  datatype TimingEdge = TimingEdge(from: nat, to: nat, delay: real, wireDelay: real, logicDelay: real,
                                   isFalsePath: bool)

  ghost predicate EdgesInRange(E: seq<TimingEdge>, n: nat) {
    forall e :: 0 <= e < |E| ==> E[e].from < n && E[e].to < n
  }

  // ---------------------------------------------------------------- paths

  /** `p` lists edges that lead from s to t; the empty path leads from a node to itself. */
  ghost predicate PathFromTo(E: seq<TimingEdge>, p: seq<nat>, s: nat, t: nat) {
    if p == [] then s == t
    else
      var e := p[|p| - 1];
      e < |E| && E[e].to == t && PathFromTo(E, p[..|p| - 1], s, E[e].from)
  }

  ghost function Delay(E: seq<TimingEdge>, p: seq<nat>): real {
    if p == [] then 0.0
    else Delay(E, p[..|p| - 1]) + (if p[|p| - 1] < |E| then E[p[|p| - 1]].delay else 0.0)
  }

  ghost predicate Acyclic(E: seq<TimingEdge>) {
    forall p, v :: PathFromTo(E, p, v, v) ==> p == []
  }

  lemma {:induction false} JoinPaths(E: seq<TimingEdge>, p: seq<nat>, q: seq<nat>, s: nat, v: nat, t: nat)
    requires PathFromTo(E, p, s, v) && PathFromTo(E, q, v, t)
    ensures PathFromTo(E, p + q, s, t) && Delay(E, p + q) == Delay(E, p) + Delay(E, q)
    decreases |q|
  {
    if q == [] {
      assert p + q == p;
    } else {
      var r := q[..|q| - 1];
      JoinPaths(E, p, r, s, v, E[q[|q| - 1]].from);
      assert (p + q)[..|p + q| - 1] == p + r;
    }
  }

  /** The part of a path up to position `i` leads to where the rest starts. */
  lemma {:induction false} SplitPath(E: seq<TimingEdge>, p: seq<nat>, s: nat, t: nat, i: nat) returns (v: nat)
    requires PathFromTo(E, p, s, t) && i <= |p|
    ensures PathFromTo(E, p[..i], s, v) && PathFromTo(E, p[i..], v, t)
    ensures i < |p| ==> p[i] < |E| && E[p[i]].from == v
    ensures i == |p| ==> v == t
    decreases |p|
  {
    if i == |p| {
      assert p[..i] == p;
      v := t;
    } else {
      var front := p[..|p| - 1];
      v := SplitPath(E, front, s, E[p[|p| - 1]].from, i);
      assert front[..i] == p[..i];
      assert p[i..][..|p[i..]| - 1] == front[i..];
    }
  }

  // ---------------------------------------------------------------- reversal

  function Flipped(E: seq<TimingEdge>): (r: seq<TimingEdge>)
    ensures |r| == |E|
    ensures forall e :: 0 <= e < |E| ==> r[e] == E[e].(from := E[e].to, to := E[e].from)
  {
    seq(|E|, e requires 0 <= e < |E| => E[e].(from := E[e].to, to := E[e].from))
  }

  function Backwards(p: seq<nat>): seq<nat> {
    if p == [] then [] else [p[|p| - 1]] + Backwards(p[..|p| - 1])
  }

  /** A path read backwards is a path of the flipped edges, with the same delay. */
  lemma {:induction false} FlipPath(E: seq<TimingEdge>, p: seq<nat>, s: nat, t: nat)
    requires PathFromTo(E, p, s, t)
    ensures PathFromTo(Flipped(E), Backwards(p), t, s)
    ensures Delay(Flipped(E), Backwards(p)) == Delay(E, p)
    ensures |Backwards(p)| == |p|
    decreases |p|
  {
    if p != [] {
      var e := p[|p| - 1];
      var F := Flipped(E);
      FlipPath(E, p[..|p| - 1], s, E[e].from);
      assert [e][..0] == [];
      assert PathFromTo(F, [], t, t);
      assert PathFromTo(F, [e], t, E[e].from);
      assert Delay(F, [e]) == Delay(F, []) + F[e].delay;
      JoinPaths(F, [e], Backwards(p[..|p| - 1]), t, E[e].from, s);
    }
  }

  lemma FlipTwice(E: seq<TimingEdge>)
    ensures Flipped(Flipped(E)) == E
  {
  }

  lemma FlippedAcyclic(E: seq<TimingEdge>)
    ensures Acyclic(Flipped(E)) <==> Acyclic(E)
  {
    FlipTwice(E);
    if p, v :| PathFromTo(E, p, v, v) && p != [] {
      FlipPath(E, p, v, v);
      assert Backwards(p) != [];
    }
    if p, v :| PathFromTo(Flipped(E), p, v, v) && p != [] {
      FlipPath(Flipped(E), p, v, v);
      assert Backwards(p) != [];
    }
  }

  // ---------------------------------------------------------------- propagation

  /** A propagated value; NegInf is that of a node nothing has reached. */
  datatype Ext = NegInf | Fin(value: real)

  predicate AtMost(a: Ext, b: Ext) {
    a.NegInf? || (b.Fin? && a.value <= b.value)
  }

  function Plus(a: Ext, w: real): Ext {
    if a.NegInf? then NegInf else Fin(a.value + w)
  }

  function MaxExt(a: Ext, b: Ext): Ext {
    if AtMost(b, a) then a else b
  }

  /** Edges still to be relaxed into each node, every node queued so far, and the values. */
  datatype Kahn = Kahn(deg: seq<int>, queue: seq<nat>, val: seq<Ext>)

  ghost function EdgesInto(E: seq<TimingEdge>, v: nat): set<nat> {
    set e: nat | e < |E| && E[e].to == v
  }

  ghost predicate Shape(E: seq<TimingEdge>, n: nat, init: seq<Ext>, s: Kahn, R: set<nat>) {
    && EdgesInRange(E, n) && |s.deg| == |s.val| == |init| == n
    && (forall e :: e in R ==> e < |E|)
    && (forall i :: 0 <= i < |s.queue| ==> s.queue[i] < n) && Simple(s.queue)
  }

  /** `v` counts its unrelaxed edges, and is queued exactly when there are none. */
  ghost predicate CountedAt(E: seq<TimingEdge>, s: Kahn, R: set<nat>, v: nat)
    requires v < |s.deg|
  {
    && s.deg[v] == |EdgesInto(E, v) - R|
    && (v in s.queue <==> EdgesInto(E, v) <= R)
  }

  /** The value of `v` is the largest of its own start and what its relaxed edges bring. */
  ghost predicate ValuedAt(E: seq<TimingEdge>, n: nat, init: seq<Ext>, s: Kahn, R: set<nat>, v: nat)
    requires v < n && Shape(E, n, init, s, R)
  {
    && AtMost(init[v], s.val[v])
    && (forall e :: e in R && E[e].to == v ==> AtMost(Plus(s.val[E[e].from], E[e].delay), s.val[v]))
    && (s.val[v] == init[v] || exists e :: e in R && E[e].to == v && s.val[v] == Plus(s.val[E[e].from], E[e].delay))
  }

  /** Every edge into a queued node comes from a node queued before it. */
  ghost predicate Ordered(E: seq<TimingEdge>, q: seq<nat>) {
    forall e, j :: 0 <= e < |E| && 0 <= j < |q| && E[e].to == q[j] ==> E[e].from in q[..j]
  }

  ghost predicate Propagated(E: seq<TimingEdge>, n: nat, init: seq<Ext>, s: Kahn, R: set<nat>) {
    && Shape(E, n, init, s, R)
    && (forall v {:trigger CountedAt(E, s, R, v)} :: 0 <= v < n ==> CountedAt(E, s, R, v))
    && (forall v {:trigger ValuedAt(E, n, init, s, R, v)} :: 0 <= v < n ==> ValuedAt(E, n, init, s, R, v))
    && (forall e :: e in R ==> E[e].from in s.queue)
    && Ordered(E, s.queue)
  }

  function Relaxed(E: seq<TimingEdge>, s: Kahn, e: nat): Kahn
    requires e < |E| && E[e].from < |s.val| == |s.deg| && E[e].to < |s.val|
  {
    var v := E[e].to;
    Kahn(s.deg[v := s.deg[v] - 1],
         if s.deg[v] == 1 then s.queue + [v] else s.queue,
         s.val[v := MaxExt(s.val[v], Plus(s.val[E[e].from], E[e].delay))])
  }

  lemma LastEdgeLeft(into: set<nat>, R: set<nat>, e: nat)
    requires e in into && e !in R
    ensures |into - (R + {e})| == |into - R| - 1
    ensures into <= R + {e} <==> |into - R| == 1
  {
    var left := into - R;
    assert into - (R + {e}) == left - {e};
    if |left| == 1 {
      assert |left - {e}| == 0;
      assert left == {e};
    }
  }

  lemma OtherEdgesLeft(into: set<nat>, R: set<nat>, e: nat)
    requires e !in into
    ensures into - (R + {e}) == into - R
    ensures into <= R + {e} <==> into <= R
  {
  }

  lemma RelaxCounts(E: seq<TimingEdge>, n: nat, init: seq<Ext>, s: Kahn, R: set<nat>, e: nat, w: nat)
    requires Propagated(E, n, init, s, R) && e < |E| && e !in R && w < n
    ensures CountedAt(E, Relaxed(E, s, e), R + {e}, w)
  {
    var v := E[e].to;
    assert CountedAt(E, s, R, w) && CountedAt(E, s, R, v);
    if w == v {
      LastEdgeLeft(EdgesInto(E, v), R, e);
      assert !(EdgesInto(E, v) <= R);
    } else {
      OtherEdgesLeft(EdgesInto(E, w), R, e);
    }
  }

  lemma RelaxShape(E: seq<TimingEdge>, n: nat, init: seq<Ext>, s: Kahn, R: set<nat>, e: nat)
    requires Propagated(E, n, init, s, R) && e < |E| && e !in R
    ensures Shape(E, n, init, Relaxed(E, s, e), R + {e}) && E[e].to !in s.queue
  {
    assert CountedAt(E, s, R, E[e].to);
    assert e in EdgesInto(E, E[e].to);
  }

  lemma RelaxValues(E: seq<TimingEdge>, n: nat, init: seq<Ext>, s: Kahn, R: set<nat>, e: nat, w: nat)
    requires Propagated(E, n, init, s, R) && e < |E| && e !in R && w < n && E[e].from in s.queue
    requires Shape(E, n, init, Relaxed(E, s, e), R + {e}) && E[e].to !in s.queue
    ensures ValuedAt(E, n, init, Relaxed(E, s, e), R + {e}, w)
  {
    var t := Relaxed(E, s, e);
    var v := E[e].to;
    assert ValuedAt(E, n, init, s, R, w);
    assert forall f :: f in R + {e} ==> t.val[E[f].from] == s.val[E[f].from];
    if w == v {
      if AtMost(Plus(s.val[E[e].from], E[e].delay), s.val[v]) {
        assert t.val[v] == s.val[v];
        if s.val[w] != init[w] {
          var f :| f in R && E[f].to == w && s.val[w] == Plus(s.val[E[f].from], E[f].delay);
          assert f in R + {e};
        }
      } else {
        assert e in R + {e} && t.val[v] == Plus(t.val[E[e].from], E[e].delay);
      }
    } else if s.val[w] != init[w] {
      var f :| f in R && E[f].to == w && s.val[w] == Plus(s.val[E[f].from], E[f].delay);
      assert f in R + {e} && t.val[w] == Plus(t.val[E[f].from], E[f].delay);
    }
  }

  lemma RelaxOrder(E: seq<TimingEdge>, n: nat, init: seq<Ext>, s: Kahn, R: set<nat>, e: nat)
    requires Propagated(E, n, init, s, R) && e < |E| && e !in R && E[e].from in s.queue
    ensures Ordered(E, Relaxed(E, s, e).queue)
  {
    var t := Relaxed(E, s, e);
    var v := E[e].to;
    RelaxCounts(E, n, init, s, R, e, v);
    RelaxShape(E, n, init, s, R, e);
    forall f, j | 0 <= f < |E| && 0 <= j < |t.queue| && E[f].to == t.queue[j] ensures E[f].from in t.queue[..j] {
      if j < |s.queue| {
        assert t.queue[..j] == s.queue[..j];
      } else {
        assert v in t.queue && f in EdgesInto(E, v);
        assert t.queue[..j] == s.queue;
      }
    }
  }

  /** Relaxing one more edge out of a queued node. */
  lemma RelaxKeeps(E: seq<TimingEdge>, n: nat, init: seq<Ext>, s: Kahn, R: set<nat>, e: nat)
    requires Propagated(E, n, init, s, R) && e < |E| && e !in R && E[e].from in s.queue
    ensures Propagated(E, n, init, Relaxed(E, s, e), R + {e})
    ensures s.queue <= Relaxed(E, s, e).queue
  {
    RelaxShape(E, n, init, s, R, e);
    RelaxOrder(E, n, init, s, R, e);
    forall w | 0 <= w < n
      ensures CountedAt(E, Relaxed(E, s, e), R + {e}, w) && ValuedAt(E, n, init, Relaxed(E, s, e), R + {e}, w)
    {
      RelaxCounts(E, n, init, s, R, e, w);
      RelaxValues(E, n, init, s, R, e, w);
    }
  }

  lemma WorklistFits(E: seq<TimingEdge>, n: nat, init: seq<Ext>, s: Kahn, R: set<nat>)
    requires Shape(E, n, init, s, R)
    ensures |s.queue| <= n
  {
    DistinctBelow(s.queue, n);
  }

  /** The state after one more relaxation, with room for its queue. */
  lemma {:induction false} RelaxNext(E: seq<TimingEdge>, n: nat, init: seq<Ext>, s: Kahn, R: set<nat>, e: nat)
    returns (t: Kahn)
    requires Propagated(E, n, init, s, R) && e < |E| && e !in R && E[e].from in s.queue
    ensures t == Relaxed(E, s, e) && Propagated(E, n, init, t, R + {e})
    ensures |t.queue| <= n && s.queue <= t.queue
  {
    t := Relaxed(E, s, e);
    RelaxKeeps(E, n, init, s, R, e);
    WorklistFits(E, n, init, t, R + {e});
  }

  // ---------------------------------------------------------------- finished propagation

  /** Every edge out of a queued node has been relaxed, and no other. */
  ghost predicate Finished(E: seq<TimingEdge>, s: Kahn, R: set<nat>) {
    forall e: nat :: e < |E| ==> (e in R <==> E[e].from in s.queue)
  }

  lemma {:induction false} PathGoesForward(E: seq<TimingEdge>, q: seq<nat>, p: seq<nat>, s: nat, j: nat)
    requires Ordered(E, q) && j < |q| && PathFromTo(E, p, s, q[j]) && p != []
    ensures s in q[..j]
    decreases |p|
  {
    var e := p[|p| - 1];
    assert E[e].from in q[..j];
    var i :| 0 <= i < j && q[i] == E[e].from;
    if |p| > 1 {
      PathGoesForward(E, q, p[..|p| - 1], s, i);
      var k :| 0 <= k < i && q[k] == s;
      assert q[..j][k] == s;
    } else {
      assert PathFromTo(E, [], s, E[e].from);
    }
  }

  lemma {:induction false} BackwardPath(E: seq<TimingEdge>, n: nat, init: seq<Ext>, s: Kahn, R: set<nat>, v: nat,
                                        k: nat)
    returns (p: seq<nat>, u: nat)
    requires Propagated(E, n, init, s, R) && Finished(E, s, R) && v < n && v !in s.queue
    ensures |p| == k && u < n && u !in s.queue && PathFromTo(E, p, u, v)
    decreases k
  {
    if k == 0 {
      p, u := [], v;
    } else {
      assert CountedAt(E, s, R, v);
      var e :| e in EdgesInto(E, v) && e !in R;
      var q;
      q, u := BackwardPath(E, n, init, s, R, E[e].from, k - 1);
      p := q + [e];
      assert p[..|p| - 1] == q;
    }
  }

  ghost function Sources(E: seq<TimingEdge>, p: seq<nat>): (r: seq<nat>)
    requires forall i :: 0 <= i < |p| ==> p[i] < |E|
    ensures |r| == |p| && forall i :: 0 <= i < |p| ==> r[i] == E[p[i]].from
  {
    seq(|p|, i requires 0 <= i < |p| => E[p[i]].from)
  }

  lemma {:induction false} PathEdges(E: seq<TimingEdge>, p: seq<nat>, s: nat, t: nat)
    requires PathFromTo(E, p, s, t)
    ensures forall i :: 0 <= i < |p| ==> p[i] < |E|
    decreases |p|
  {
    if p != [] {
      PathEdges(E, p[..|p| - 1], s, E[p[|p| - 1]].from);
      forall i | 0 <= i < |p| ensures p[i] < |E| {
        if i < |p| - 1 { assert p[i] == p[..|p| - 1][i]; }
      }
    }
  }

  /** A path of more edges than there are nodes comes back to a node it left. */
  lemma LongPathHasCycle(E: seq<TimingEdge>, n: nat, p: seq<nat>, s: nat, t: nat)
    requires EdgesInRange(E, n) && PathFromTo(E, p, s, t) && |p| > n
    ensures !Acyclic(E)
  {
    PathEdges(E, p, s, t);
    var src := Sources(E, p);
    if Simple(src) {
      DistinctBelow(src, n);
    } else {
      var i, j :| 0 <= i < j < |src| && src[i] == src[j];
      var u := SplitPath(E, p, s, t, j);
      var w := SplitPath(E, p[..j], s, u, i);
      assert p[..j][i..] != [];
    }
  }

  /** Kahn's test: every node gets queued exactly when there is no cycle. */
  lemma AllQueuedIffAcyclic(E: seq<TimingEdge>, n: nat, init: seq<Ext>, s: Kahn, R: set<nat>)
    requires Propagated(E, n, init, s, R) && Finished(E, s, R)
    ensures |s.queue| == n <==> Acyclic(E)
    ensures |s.queue| == n ==> forall v :: 0 <= v < n ==> v in s.queue
  {
    WorklistFits(E, n, init, s, R);
    if |s.queue| < n {
      var v := Missing(s.queue, n);
      var p, u := BackwardPath(E, n, init, s, R, v, n + 1);
      LongPathHasCycle(E, n, p, u, v);
    } else {
      forall v | 0 <= v < n ensures v in s.queue {
        if v !in s.queue { DistinctBelow(s.queue + [v], n); }
      }
      forall p, v | PathFromTo(E, p, v, v) ensures p == [] {
        if p != [] {
          var e := p[|p| - 1];
          assert E[e].to in s.queue;
          var j :| 0 <= j < |s.queue| && s.queue[j] == v;
          PathGoesForward(E, s.queue, p, v, j);
        }
      }
    }
  }

  lemma {:induction false} Missing(q: seq<nat>, n: nat) returns (v: nat)
    requires Simple(q) && |q| < n
    ensures v < n && v !in q
    decreases n
  {
    if n - 1 !in q {
      v := n - 1;
    } else {
      var i :| 0 <= i < |q| && q[i] == n - 1;
      v := Missing(q[..i] + q[i + 1..], n - 1);
      assert forall k :: 0 <= k < |q| && k != i ==> q[k] in q[..i] + q[i + 1..] by {
        forall k | 0 <= k < |q| && k != i ensures q[k] in q[..i] + q[i + 1..] {
          if k < i { assert q[k] == (q[..i] + q[i + 1..])[k]; } else { assert q[k] == (q[..i] + q[i + 1..])[k - 1]; }
        }
      }
    }
  }

  /** `x` is the largest start-plus-delay over all paths that end at `v`. */
  ghost predicate LongestTo(E: seq<TimingEdge>, init: seq<Ext>, v: nat, x: Ext) {
    && (forall p, s: nat :: s < |init| && PathFromTo(E, p, s, v) ==> AtMost(Plus(init[s], Delay(E, p)), x))
    && (exists p, s: nat :: s < |init| && PathFromTo(E, p, s, v) && x == Plus(init[s], Delay(E, p)))
  }

  lemma {:induction false} PathBelowValue(E: seq<TimingEdge>, n: nat, init: seq<Ext>, s: Kahn, R: set<nat>,
                                          p: seq<nat>, u: nat, v: nat)
    requires Propagated(E, n, init, s, R) && Finished(E, s, R) && (forall w :: 0 <= w < n ==> w in s.queue)
    requires u < n && v < n && PathFromTo(E, p, u, v)
    ensures AtMost(Plus(init[u], Delay(E, p)), s.val[v])
    decreases |p|
  {
    assert ValuedAt(E, n, init, s, R, v);
    if p != [] {
      var e := p[|p| - 1];
      PathBelowValue(E, n, init, s, R, p[..|p| - 1], u, E[e].from);
      assert e in R;
    }
  }

  lemma {:induction false} ValueAttained(E: seq<TimingEdge>, n: nat, init: seq<Ext>, s: Kahn, R: set<nat>, j: nat)
    returns (p: seq<nat>, u: nat)
    requires Propagated(E, n, init, s, R) && j < |s.queue|
    ensures u < n && PathFromTo(E, p, u, s.queue[j]) && s.val[s.queue[j]] == Plus(init[u], Delay(E, p))
    decreases j
  {
    var v := s.queue[j];
    assert ValuedAt(E, n, init, s, R, v);
    if s.val[v] == init[v] {
      p, u := [], v;
    } else {
      var e :| e in R && E[e].to == v && s.val[v] == Plus(s.val[E[e].from], E[e].delay);
      assert E[e].from in s.queue[..j];
      var i :| 0 <= i < j && s.queue[i] == E[e].from;
      var q;
      q, u := ValueAttained(E, n, init, s, R, i);
      p := q + [e];
      assert p[..|p| - 1] == q;
    }
  }

  /** On an acyclic graph a finished propagation holds the longest path into every node. */
  lemma FinishedIsLongest(E: seq<TimingEdge>, n: nat, init: seq<Ext>, s: Kahn, R: set<nat>)
    requires Propagated(E, n, init, s, R) && Finished(E, s, R) && |s.queue| == n
    ensures forall v: nat :: v < n ==> LongestTo(E, init, v, s.val[v])
  {
    AllQueuedIffAcyclic(E, n, init, s, R);
    forall v: nat | v < n ensures LongestTo(E, init, v, s.val[v]) {
      forall p, u: nat | u < |init| && PathFromTo(E, p, u, v) ensures AtMost(Plus(init[u], Delay(E, p)), s.val[v]) {
        PathBelowValue(E, n, init, s, R, p, u, v);
      }
      assert v in s.queue;
      var j :| 0 <= j < |s.queue| && s.queue[j] == v;
      var p, u := ValueAttained(E, n, init, s, R, j);
    }
  }
}
