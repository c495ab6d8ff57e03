/**
 Levels and FlowMap labels of a gate network with at most four inputs a gate. Input slots
 hold a node number or -1; slots below `numInputs` that were never set stay -1.
 */
module TechMap {
  import opened GraphSearch

  const MAX_NODES := 1024
  const FANIN := 4
  const MAX_LUT := 6

  datatype GateType = AndGate | OrGate | NotGate | XorGate | NandGate | NorGate | XnorGate | BufGate | MuxGate

  datatype Node = Node(kind: GateType, inputs: seq<int>, numInputs: nat, primaryInput: bool, primaryOutput: bool,
                       refs: nat)

  function NewNode(kind: GateType): Node {
    Node(kind, [-1, -1, -1, -1], 0, false, false, 0)
  }

  ghost predicate Formed(nodes: seq<Node>) {
    forall v :: 0 <= v < |nodes| ==>
      && |nodes[v].inputs| == FANIN && nodes[v].numInputs <= FANIN
      && forall j :: 0 <= j < FANIN ==> -1 <= nodes[v].inputs[j] < |nodes|
  }

  /** `f` is an input of `v`. */
  ghost predicate Feeds(nodes: seq<Node>, f: int, v: int)
    requires Formed(nodes)
  {
    0 <= v < |nodes| && exists j :: 0 <= j < nodes[v].numInputs && nodes[v].inputs[j] == f
  }

  // ---------------------------------------------------------------- what the queue counts

  /** How many of the first `k` input slots do not name a node of `done`. */
  function Waiting(nd: Node, done: seq<nat>, k: nat): nat
    requires k <= |nd.inputs|
  {
    if k == 0 then 0 else Waiting(nd, done, k - 1) + (if nd.inputs[k - 1] in done then 0 else 1)
  }

  function Uses(nd: Node, u: nat, k: nat): nat
    requires k <= |nd.inputs|
  {
    if k == 0 then 0 else Uses(nd, u, k - 1) + (if nd.inputs[k - 1] == u then 1 else 0)
  }

  lemma {:induction false} WaitingForOneLess(nd: Node, done: seq<nat>, u: nat, k: nat)
    requires k <= |nd.inputs| && u !in done
    ensures Waiting(nd, done + [u], k) == Waiting(nd, done, k) - Uses(nd, u, k)
  {
    if k > 0 { WaitingForOneLess(nd, done, u, k - 1); }
  }

  lemma {:induction false} WaitingZeroIff(nd: Node, done: seq<nat>, k: nat)
    requires k <= |nd.inputs|
    ensures Waiting(nd, done, k) == 0 <==> forall j :: 0 <= j < k ==> nd.inputs[j] in done
  {
    if k > 0 { WaitingZeroIff(nd, done, k - 1); }
  }

  lemma {:induction false} WaitingForAll(nd: Node, k: nat)
    requires k <= |nd.inputs|
    ensures Waiting(nd, [], k) == k
  {
    if k > 0 { WaitingForAll(nd, k - 1); }
  }

  lemma {:induction false} UsesGrow(nd: Node, u: nat, j: nat, k: nat)
    requires j <= k <= |nd.inputs|
    ensures Uses(nd, u, j) <= Uses(nd, u, k)
    decreases k
  {
    if j < k { UsesGrow(nd, u, j, k - 1); }
  }

  /**
   The counters hold what each node waits for once `done` is handled, and the queue holds the nodes that wait
   for nothing.
   */
  ghost predicate Tracked(nodes: seq<Node>, inDeg: seq<int>, queue: seq<nat>, done: seq<nat>)
    requires Formed(nodes)
  {
    && |inDeg| == |nodes| && Simple(queue) && (forall i :: 0 <= i < |queue| ==> queue[i] < |nodes|)
    && (forall v :: 0 <= v < |nodes| ==> inDeg[v] == Waiting(nodes[v], done, nodes[v].numInputs))
    && (forall v: nat :: v < |nodes| ==> (v in queue <==> inDeg[v] == 0))
  }

  // ---------------------------------------------------------------- levels

  /** The largest level among the first `k` inputs, -1 when there is none. */
  function MaxFanin(nd: Node, level: seq<int>, k: nat): int
    requires k <= |nd.inputs| && forall j :: 0 <= j < k ==> nd.inputs[j] < |level|
  {
    if k == 0 then -1
    else
      var m, f := MaxFanin(nd, level, k - 1), nd.inputs[k - 1];
      if f >= 0 && level[f] > m then level[f] else m
  }

  function LevelOf(nd: Node, level: seq<int>): int
    requires nd.numInputs <= |nd.inputs| && forall j :: 0 <= j < nd.numInputs ==> nd.inputs[j] < |level|
  {
    MaxFanin(nd, level, nd.numInputs) + 1
  }

  /** Every input of the node is in the list. */
  ghost predicate Ready(nd: Node, done: seq<nat>)
    requires nd.numInputs <= |nd.inputs|
  {
    forall j :: 0 <= j < nd.numInputs ==> nd.inputs[j] in done
  }

  /** Entry `i` of the order comes behind all its inputs, and its level is one more than the largest of theirs. */
  ghost predicate Settled(nodes: seq<Node>, level: seq<int>, order: seq<nat>, i: nat)
    requires Formed(nodes) && |level| == |nodes| && i < |order| && order[i] < |nodes|
  {
    var nd := nodes[order[i]];
    && Ready(nd, order[..i])
    && level[order[i]] == LevelOf(nd, level) && 0 <= level[order[i]] <= i
  }

  ghost predicate Leveled(nodes: seq<Node>, level: seq<int>, order: seq<nat>)
    requires Formed(nodes) && |level| == |nodes|
  {
    && Simple(order)
    && (forall i :: 0 <= i < |order| ==> order[i] < |nodes|)
    && (forall i: nat :: i < |order| ==> Settled(nodes, level, order, i))
  }

  lemma {:induction false} MaxFaninSame(nd: Node, a: seq<int>, b: seq<int>, k: nat)
    requires k <= |nd.inputs| && |a| == |b| && forall j :: 0 <= j < k ==> nd.inputs[j] < |a|
    requires forall j :: 0 <= j < k && nd.inputs[j] >= 0 ==> a[nd.inputs[j]] == b[nd.inputs[j]]
    ensures MaxFanin(nd, a, k) == MaxFanin(nd, b, k)
  {
    if k > 0 { MaxFaninSame(nd, a, b, k - 1); }
  }

  lemma {:induction false} MaxFaninIs(nd: Node, level: seq<int>, k: nat)
    requires k <= |nd.inputs| && forall j :: 0 <= j < k ==> nd.inputs[j] < |level|
    ensures forall j :: 0 <= j < k && nd.inputs[j] >= 0 ==> level[nd.inputs[j]] <= MaxFanin(nd, level, k)
    ensures MaxFanin(nd, level, k) == -1
         || exists j :: 0 <= j < k && nd.inputs[j] >= 0 && level[nd.inputs[j]] == MaxFanin(nd, level, k)
  {
    if k > 0 { MaxFaninIs(nd, level, k - 1); }
  }

  lemma {:induction false} MaxFaninBelow(nd: Node, level: seq<int>, k: nat, bound: int)
    requires k <= |nd.inputs| && -1 < bound && forall j :: 0 <= j < k ==> nd.inputs[j] < |level|
    requires forall j :: 0 <= j < k && nd.inputs[j] >= 0 ==> level[nd.inputs[j]] < bound
    ensures -1 <= MaxFanin(nd, level, k) < bound
  {
    if k > 0 { MaxFaninBelow(nd, level, k - 1, bound); }
  }

  /** Giving the next node of the queue its level keeps the levels before it. */
  lemma LevelNext(nodes: seq<Node>, level: seq<int>, order: seq<nat>, u: nat)
    requires Formed(nodes) && |level| == |nodes| && Leveled(nodes, level, order)
    requires u < |nodes| && u !in order
    requires Ready(nodes[u], order)
    ensures Leveled(nodes, level[u := LevelOf(nodes[u], level)], order + [u])
  {
    var after, next := level[u := LevelOf(nodes[u], level)], order + [u];
    forall i: nat | i < |next| ensures Settled(nodes, after, next, i) {
      if i < |order| {
        var v := order[i];
        assert Settled(nodes, level, order, i) && next[..i] == order[..i] && v != u;
        MaxFaninSame(nodes[v], level, after, nodes[v].numInputs);
      } else {
        assert next[..i] == order;
        MaxFaninSame(nodes[u], level, after, nodes[u].numInputs);
        forall j | 0 <= j < nodes[u].numInputs ensures level[nodes[u].inputs[j]] < |order| + 1 {
          var p: nat :| p < |order| && order[p] == nodes[u].inputs[j];
          assert Settled(nodes, level, order, p);
        }
        MaxFaninAtMost(nodes[u], level, nodes[u].numInputs, order, nodes);
      }
    }
  }

  lemma MaxFaninAtMost(nd: Node, level: seq<int>, k: nat, order: seq<nat>, nodes: seq<Node>)
    requires Formed(nodes) && |level| == |nodes| && Leveled(nodes, level, order)
    requires k <= |nd.inputs| && forall j :: 0 <= j < k ==> nd.inputs[j] in order
    ensures -1 <= MaxFanin(nd, level, k) < |order| || (|order| == 0 && MaxFanin(nd, level, k) == -1)
  {
    forall j | 0 <= j < k ensures level[nd.inputs[j]] < |order| {
      var p: nat :| p < |order| && order[p] == nd.inputs[j];
      assert Settled(nodes, level, order, p);
    }
    assert k > 0 ==> nd.inputs[0] in order;
    if |order| > 0 {
      MaxFaninBelow(nd, level, k, |order|);
    }
  }

  lemma HeadIsReady(nodes: seq<Node>, inDeg: seq<int>, queue: seq<nat>, head: nat)
    requires Formed(nodes) && head < |queue| && Tracked(nodes, inDeg, queue, queue[..head])
    ensures queue[head] < |nodes| && queue[head] !in queue[..head] && Ready(nodes[queue[head]], queue[..head])
  {
    var u := queue[head];
    assert u in queue;
    WaitingZeroIff(nodes[u], queue[..head], nodes[u].numInputs);
  }

  lemma NothingReady(nodes: seq<Node>, inDeg: seq<int>, order: seq<nat>)
    requires Formed(nodes) && Tracked(nodes, inDeg, order, order)
    ensures Complete(nodes, order)
  {
    forall v: nat | v < |nodes| && v !in order ensures !Ready(nodes[v], order) {
      WaitingZeroIff(nodes[v], order, nodes[v].numInputs);
    }
  }

  lemma {:induction false} InputlessReached(nodes: seq<Node>, order: seq<nat>)
    requires Formed(nodes) && Complete(nodes, order)
    ensures forall v: nat :: v < |nodes| && nodes[v].numInputs == 0 ==> v in order
  {
    forall v: nat | v < |nodes| && nodes[v].numInputs == 0 ensures v in order {
      assert Ready(nodes[v], order);
    }
  }

  // ---------------------------------------------------------------- which networks get levels

  /** A rank that grows along every input, with no slot left unset. */
  ghost predicate Ranked(nodes: seq<Node>, rank: seq<nat>)
    requires Formed(nodes)
  {
    |rank| == |nodes| && forall v, j :: 0 <= v < |nodes| && 0 <= j < nodes[v].numInputs ==>
      nodes[v].inputs[j] >= 0 && rank[nodes[v].inputs[j]] < rank[v]
  }

  ghost predicate Everywhere(nodes: seq<Node>, order: seq<nat>) {
    forall v: nat :: v < |nodes| ==> v in order
  }

  /** No node outside the order has all its inputs in it. */
  ghost predicate Complete(nodes: seq<Node>, order: seq<nat>)
    requires Formed(nodes)
  {
    forall v: nat :: v < |nodes| && v !in order ==> !Ready(nodes[v], order)
  }

  lemma {:induction false} RankedIsIn(nodes: seq<Node>, order: seq<nat>, rank: seq<nat>, v: nat)
    requires Formed(nodes) && Complete(nodes, order) && Ranked(nodes, rank) && v < |nodes|
    ensures v in order
    decreases rank[v]
  {
    forall j | 0 <= j < nodes[v].numInputs ensures nodes[v].inputs[j] in order {
      RankedIsIn(nodes, order, rank, nodes[v].inputs[j]);
    }
    assert Ready(nodes[v], order);
  }

  /** Every node is reached exactly when the network is acyclic and no input slot was left unset. */
  lemma AllLeveledIff(nodes: seq<Node>, level: seq<int>, order: seq<nat>)
    requires Formed(nodes) && |level| == |nodes| && Leveled(nodes, level, order) && Complete(nodes, order)
    ensures Everywhere(nodes, order) <==> exists rank :: Ranked(nodes, rank)
  {
    if rank :| Ranked(nodes, rank) {
      forall v: nat | v < |nodes| ensures v in order { RankedIsIn(nodes, order, rank, v); }
    }
    if Everywhere(nodes, order) {
      var rank: seq<nat> := seq(|nodes|, v requires 0 <= v < |nodes| => if level[v] < 0 then 0 else level[v]);
      forall v: nat, j | v < |nodes| && 0 <= j < nodes[v].numInputs
        ensures nodes[v].inputs[j] >= 0 && rank[nodes[v].inputs[j]] < rank[v]
      {
        InputBelow(nodes, level, order, v, j);
      }
      assert Ranked(nodes, rank);
    }
  }

  lemma InputBelow(nodes: seq<Node>, level: seq<int>, order: seq<nat>, v: nat, j: nat)
    requires Formed(nodes) && |level| == |nodes| && Leveled(nodes, level, order)
    requires v in order && v < |nodes| && j < nodes[v].numInputs
    ensures nodes[v].inputs[j] in order && nodes[v].inputs[j] >= 0 && 0 <= level[nodes[v].inputs[j]] < level[v]
  {
    var i: nat :| i < |order| && order[i] == v;
    assert Settled(nodes, level, order, i);
    var f := nodes[v].inputs[j];
    var p: nat :| p < i && order[..i][p] == f;
    assert order[p] == f && Settled(nodes, level, order, p);
    MaxFaninIs(nodes[v], level, nodes[v].numInputs);
  }

  // ---------------------------------------------------------------- levels are depths

  /** Each node of the chain feeds the next. */
  ghost predicate Chain(nodes: seq<Node>, c: seq<nat>)
    requires Formed(nodes)
  {
    c != [] && (forall i :: 0 <= i < |c| ==> c[i] < |nodes|)
    && forall i :: 0 <= i < |c| - 1 ==> Feeds(nodes, c[i], c[i + 1])
  }

  lemma {:induction false} ChainAtMostLevel(nodes: seq<Node>, level: seq<int>, order: seq<nat>, c: seq<nat>)
    requires Formed(nodes) && |level| == |nodes| && Leveled(nodes, level, order)
    requires Chain(nodes, c) && c[|c| - 1] in order
    ensures |c| - 1 <= level[c[|c| - 1]]
    decreases |c|
  {
    var n := |c| - 1;
    var i: nat :| i < |order| && order[i] == c[n];
    assert Settled(nodes, level, order, i);
    if n > 0 {
      assert Feeds(nodes, c[n - 1], c[n - 1 + 1]);
      var j: nat :| j < nodes[c[n]].numInputs && nodes[c[n]].inputs[j] == c[n - 1];
      InputBelow(nodes, level, order, c[n], j);
      var front := c[..n];
      assert forall k :: 0 <= k < |front| - 1 ==> Feeds(nodes, c[k], c[k + 1]);
      ChainAtMostLevel(nodes, level, order, front);
    }
  }

  lemma {:induction false} LevelHasChain(nodes: seq<Node>, level: seq<int>, order: seq<nat>, v: nat)
    returns (c: seq<nat>)
    requires Formed(nodes) && |level| == |nodes| && Leveled(nodes, level, order) && v in order && v < |nodes|
    ensures Chain(nodes, c) && c[|c| - 1] == v && |c| - 1 == level[v]
    decreases level[v]
  {
    var i: nat :| i < |order| && order[i] == v;
    assert Settled(nodes, level, order, i);
    MaxFaninIs(nodes[v], level, nodes[v].numInputs);
    if level[v] == 0 {
      c := [v];
    } else {
      var j: nat :| j < nodes[v].numInputs && nodes[v].inputs[j] >= 0
                    && level[nodes[v].inputs[j]] == MaxFanin(nodes[v], level, nodes[v].numInputs);
      InputBelow(nodes, level, order, v, j);
      var front := LevelHasChain(nodes, level, order, nodes[v].inputs[j]);
      c := front + [v];
      ChainExtends(nodes, front, v);
    }
  }

  lemma {:induction false} ChainExtends(nodes: seq<Node>, front: seq<nat>, v: nat)
    requires Formed(nodes) && Chain(nodes, front) && Feeds(nodes, front[|front| - 1], v)
    ensures Chain(nodes, front + [v])
  {
    var c := front + [v];
    forall k | 0 <= k < |c| - 1 ensures Feeds(nodes, c[k], c[k + 1]) {
      if k < |front| - 1 { assert Feeds(nodes, front[k], front[k + 1]); }
    }
  }

  /** The level of a reached node is the length of the longest chain of inputs ending in it. */
  lemma LevelIsLongestChain(nodes: seq<Node>, level: seq<int>, order: seq<nat>, v: nat)
    requires Formed(nodes) && |level| == |nodes| && Leveled(nodes, level, order) && v in order && v < |nodes|
    ensures exists c :: Chain(nodes, c) && c[|c| - 1] == v && |c| - 1 == level[v]
    ensures forall c :: Chain(nodes, c) && c[|c| - 1] == v ==> |c| - 1 <= level[v]
  {
    var c := LevelHasChain(nodes, level, order, v);
    forall d | Chain(nodes, d) && d[|d| - 1] == v ensures |d| - 1 <= level[v] {
      ChainAtMostLevel(nodes, level, order, d);
    }
  }

  // ---------------------------------------------------------------- labels

  /** The slot names a node. */
  predicate Named(nd: Node, j: nat)
    requires j < |nd.inputs|
  {
    nd.inputs[j] >= 0
  }

  function NamedInputs(nd: Node, k: nat): (r: nat)
    requires k <= |nd.inputs|
    ensures r == 0 <==> forall j :: 0 <= j < k ==> !Named(nd, j)
  {
    if k == 0 then 0 else NamedInputs(nd, k - 1) + (if Named(nd, k - 1) then 1 else 0)
  }

  /** The largest label among the first `k` inputs, and 0 at least. */
  function MaxLabel(nd: Node, labels: seq<int>, k: nat): (r: int)
    requires k <= |nd.inputs| && forall j :: 0 <= j < k ==> nd.inputs[j] < |labels|
    ensures r >= 0 && forall j :: 0 <= j < k && Named(nd, j) ==> labels[nd.inputs[j]] <= r
  {
    if k == 0 then 0
    else
      var m := MaxLabel(nd, labels, k - 1);
      if Named(nd, k - 1) && labels[nd.inputs[k - 1]] > m then labels[nd.inputs[k - 1]] else m
  }

  /** How many of the first `k` inputs carry the label `m`. */
  function WithLabel(nd: Node, labels: seq<int>, k: nat, m: int): (r: nat)
    requires k <= |nd.inputs| && forall j :: 0 <= j < k ==> nd.inputs[j] < |labels|
    ensures r <= k
  {
    if k == 0 then 0
    else WithLabel(nd, labels, k - 1, m) + (if Named(nd, k - 1) && labels[nd.inputs[k - 1]] == m then 1 else 0)
  }

  /** The labelling rule: one level up when `lutSize` inputs or more share the largest label. */
  function RuleLabel(nd: Node, labels: seq<int>, lutSize: nat): (r: int)
    requires nd.numInputs <= |nd.inputs| && forall j :: 0 <= j < nd.numInputs ==> nd.inputs[j] < |labels|
    ensures r >= 0
  {
    var m := MaxLabel(nd, labels, nd.numInputs);
    if NamedInputs(nd, nd.numInputs) == 0 then 0
    else if WithLabel(nd, labels, nd.numInputs, m) >= lutSize then m + 1 else m
  }

  ghost predicate LabelRule(nodes: seq<Node>, labels: seq<int>, lutSize: nat, v: nat)
    requires Formed(nodes) && |labels| == |nodes| && v < |nodes|
  {
    labels[v] == if nodes[v].primaryInput then 0 else RuleLabel(nodes[v], labels, lutSize)
  }

  /** The nodes of the order follow the rule. */
  ghost predicate Labelled(nodes: seq<Node>, order: seq<nat>, labels: seq<int>, lutSize: nat)
    requires Formed(nodes) && |labels| == |nodes|
  {
    forall v: nat :: v < |nodes| && v in order ==> LabelRule(nodes, labels, lutSize, v)
  }

  /** The inputs among the first `k` that are set and carry this label. */
  ghost function Carrying(nd: Node, labels: seq<int>, k: nat, m: int): set<nat> {
    set j: nat | j < k && j < |nd.inputs| && 0 <= nd.inputs[j] < |labels| && labels[nd.inputs[j]] == m
  }

  /** `p` is the largest label of an input, or 0 when none is above that. */
  ghost predicate Peak(nd: Node, labels: seq<int>, k: nat, p: int) {
    && p >= 0 && (p > 0 ==> Carrying(nd, labels, k, p) != {})
    && forall m: int :: m > p ==> Carrying(nd, labels, k, m) == {}
  }

  lemma {:induction false} WithLabelCounts(nd: Node, labels: seq<int>, k: nat, m: int)
    requires k <= |nd.inputs| && forall j :: 0 <= j < k ==> nd.inputs[j] < |labels|
    ensures WithLabel(nd, labels, k, m) == |Carrying(nd, labels, k, m)|
  {
    if k == 0 {
      assert Carrying(nd, labels, 0, m) == {};
    } else {
      WithLabelCounts(nd, labels, k - 1, m);
      if Named(nd, k - 1) && labels[nd.inputs[k - 1]] == m {
        assert Carrying(nd, labels, k, m) == Carrying(nd, labels, k - 1, m) + {k - 1};
      } else {
        assert Carrying(nd, labels, k, m) == Carrying(nd, labels, k - 1, m);
      }
    }
  }

  lemma {:induction false} MaxLabelAttained(nd: Node, labels: seq<int>, k: nat)
    requires k <= |nd.inputs| && forall j :: 0 <= j < k ==> nd.inputs[j] < |labels|
    ensures var m := MaxLabel(nd, labels, k);
            m > 0 ==> exists j: nat :: j < k && Named(nd, j) && labels[nd.inputs[j]] == m
  {
    if k > 0 {
      MaxLabelAttained(nd, labels, k - 1);
      assert Named(nd, k - 1) || !Named(nd, k - 1);
    }
  }

  /**
   The label by its meaning: 0 at a primary input and at a gate without inputs; else the largest label of an input, or
   one more when at least `lutSize` inputs carry just that label.
   */
  lemma {:induction false} LabelIs(nodes: seq<Node>, labels: seq<int>, lutSize: nat, v: nat) returns (p: int)
    requires Formed(nodes) && |labels| == |nodes| && v < |nodes| && LabelRule(nodes, labels, lutSize, v)
    ensures var nd := nodes[v];
            && Peak(nd, labels, nd.numInputs, p)
            && labels[v] ==
               if nd.primaryInput || (forall j :: 0 <= j < nd.numInputs ==> nd.inputs[j] < 0) then 0
               else if |Carrying(nd, labels, nd.numInputs, p)| >= lutSize then p + 1 else p
  {
    var nd := nodes[v];
    p := MaxLabel(nd, labels, nd.numInputs);
    WithLabelCounts(nd, labels, nd.numInputs, p);
    MaxLabelAttained(nd, labels, nd.numInputs);
    if p > 0 {
      var j: nat :| j < nd.numInputs && Named(nd, j) && labels[nd.inputs[j]] == p;
      assert j in Carrying(nd, labels, nd.numInputs, p);
    }
    forall m: int | m > p ensures Carrying(nd, labels, nd.numInputs, m) == {} {
    }
    assert (forall j :: 0 <= j < nd.numInputs ==> nd.inputs[j] < 0)
           <==> (forall j :: 0 <= j < nd.numInputs ==> !Named(nd, j));
  }

  lemma {:induction false} MaxLabelBelow(nd: Node, labels: seq<int>, k: nat, bound: int)
    requires k <= |nd.inputs| && bound > 0 && forall j :: 0 <= j < k ==> nd.inputs[j] < |labels|
    requires forall j :: 0 <= j < k && Named(nd, j) ==> labels[nd.inputs[j]] < bound
    ensures MaxLabel(nd, labels, k) < bound
  {
    if k > 0 { MaxLabelBelow(nd, labels, k - 1, bound); }
  }

  /** A label is never above the node's level. */
  lemma {:induction false} LabelAtMostLevel(nodes: seq<Node>, level: seq<int>, order: seq<nat>, labels: seq<int>,
                                            lutSize: nat, v: nat)
    requires Formed(nodes) && |level| == |nodes| == |labels|
    requires Leveled(nodes, level, order) && Labelled(nodes, order, labels, lutSize) && v < |nodes| && v in order
    ensures 0 <= labels[v] <= level[v]
    decreases level[v]
  {
    var nd := nodes[v];
    var i: nat :| i < |order| && order[i] == v;
    assert Settled(nodes, level, order, i) && LabelRule(nodes, labels, lutSize, v);
    if !nd.primaryInput && nd.numInputs > 0 {
      forall j: nat | j < nd.numInputs ensures labels[nd.inputs[j]] < level[v] {
        InputBelow(nodes, level, order, v, j);
        LabelAtMostLevel(nodes, level, order, labels, lutSize, nd.inputs[j]);
      }
      InputBelow(nodes, level, order, v, 0);
      MaxLabelBelow(nd, labels, nd.numInputs, level[v]);
    }
  }

  /** Labels do not fall from an input to the gate, unless the gate is marked as a primary input. */
  lemma LabelsRise(nodes: seq<Node>, order: seq<nat>, labels: seq<int>, lutSize: nat, v: nat, j: nat)
    requires Formed(nodes) && |labels| == |nodes| && Labelled(nodes, order, labels, lutSize)
    requires v < |nodes| && v in order && j < nodes[v].numInputs && Named(nodes[v], j) && !nodes[v].primaryInput
    ensures labels[nodes[v].inputs[j]] <= labels[v]
  {
    assert LabelRule(nodes, labels, lutSize, v);
  }

  /** With lookup tables of five inputs or more no gate has enough inputs to go up: every label is 0. */
  lemma {:induction false} LargeTablesLabelNothing(nodes: seq<Node>, level: seq<int>, order: seq<nat>, labels: seq<int>,
                                                   lutSize: nat, v: nat)
    requires Formed(nodes) && |level| == |nodes| == |labels| && lutSize > FANIN
    requires Leveled(nodes, level, order) && Labelled(nodes, order, labels, lutSize) && v < |nodes| && v in order
    ensures labels[v] == 0
    decreases level[v]
  {
    var nd := nodes[v];
    var i: nat :| i < |order| && order[i] == v;
    assert Settled(nodes, level, order, i) && LabelRule(nodes, labels, lutSize, v);
    if !nd.primaryInput && nd.numInputs > 0 {
      forall j: nat | j < nd.numInputs ensures labels[nd.inputs[j]] < 1 {
        InputBelow(nodes, level, order, v, j);
        LargeTablesLabelNothing(nodes, level, order, labels, lutSize, nd.inputs[j]);
      }
      MaxLabelBelow(nd, labels, nd.numInputs, 1);
    }
  }

  /** A network with levels everywhere and the labels the rule gives it. */
  ghost predicate LabelledNetwork(nodes: seq<Node>, level: seq<int>, order: seq<nat>, labels: seq<int>, lutSize: nat) {
    && Formed(nodes) && |level| == |nodes| == |labels|
    && Leveled(nodes, level, order) && Everywhere(nodes, order) && Labelled(nodes, order, labels, lutSize)
  }

  ghost predicate AllZero(labels: seq<int>) {
    forall v :: 0 <= v < |labels| ==> labels[v] == 0
  }

  /** Four primary inputs and a gate that reads them all. */
  function FourInputGate(): seq<Node> {
    var input := NewNode(BufGate).(primaryInput := true, refs := 1);
    [input, input, input, input, NewNode(AndGate).(inputs := [0, 1, 2, 3], numInputs := 4)]
  }

  lemma {:induction false} FourInputLevels(nodes: seq<Node>, level: seq<int>, order: seq<nat>)
    requires nodes == FourInputGate() && level == [0, 0, 0, 0, 1] && order == [0, 1, 2, 3, 4]
    ensures Formed(nodes) && Leveled(nodes, level, order) && Everywhere(nodes, order)
  {
    forall i: nat | i < |order| ensures Settled(nodes, level, order, i) {
      if i == 4 {
        assert order[..i] == [0, 1, 2, 3];
        MaxFaninBelow(nodes[4], level, 4, 1);
        MaxFaninIs(nodes[4], level, 4);
      }
    }
    forall v: nat | v < |nodes| ensures v in order {
      assert order[v] == v;
    }
  }

  lemma {:induction false} FourInputLabels(nodes: seq<Node>, order: seq<nat>, labels: seq<int>, lutSize: nat)
    requires nodes == FourInputGate() && Formed(nodes) && labels == [0, 0, 0, 0, 1] && lutSize <= FANIN
    ensures Labelled(nodes, order, labels, lutSize)
  {
    var gate := nodes[4];
    MaxLabelBelow(gate, labels, 4, 1);
    assert WithLabel(gate, labels, 2, 0) == 2;
    assert WithLabel(gate, labels, 4, 0) == 4;
    assert Named(gate, 0);
    forall v: nat | v < |nodes| ensures LabelRule(nodes, labels, lutSize, v) {
    }
  }

  /** The labels are 0 on every network exactly when the tables have more inputs than a gate can have. */
  lemma {:induction false} AllZeroIff(lutSize: nat)
    ensures (forall nodes, level, order, labels ::
               LabelledNetwork(nodes, level, order, labels, lutSize) ==> AllZero(labels))
            <==> lutSize > FANIN
  {
    if lutSize > FANIN {
      forall nodes, level, order, labels | LabelledNetwork(nodes, level, order, labels, lutSize)
        ensures AllZero(labels)
      {
        forall v: nat | v < |labels| ensures labels[v] == 0 {
          LargeTablesLabelNothing(nodes, level, order, labels, lutSize, v);
        }
      }
    } else {
      var nodes, level, order, labels := FourInputGate(), [0, 0, 0, 0, 1], [0, 1, 2, 3, 4], [0, 0, 0, 0, 1];
      FourInputLevels(nodes, level, order);
      FourInputLabels(nodes, order, labels, lutSize);
      assert LabelledNetwork(nodes, level, order, labels, lutSize) && labels[4] == 1;
    }
  }

  lemma {:induction false} NoneAboveMax(nd: Node, labels: seq<int>, k: nat, m: int)
    requires k <= |nd.inputs| && (forall j :: 0 <= j < k ==> nd.inputs[j] < |labels|) && m > MaxLabel(nd, labels, k)
    ensures WithLabel(nd, labels, k, m) == 0
  {
    if k > 0 { NoneAboveMax(nd, labels, k - 1, m); }
  }

  lemma {:induction false} SameLabels(nd: Node, a: seq<int>, b: seq<int>, k: nat, m: int)
    requires k <= |nd.inputs| && |a| == |b| && forall j :: 0 <= j < k ==> nd.inputs[j] < |a|
    requires forall j :: 0 <= j < k && Named(nd, j) ==> a[nd.inputs[j]] == b[nd.inputs[j]]
    ensures MaxLabel(nd, a, k) == MaxLabel(nd, b, k) && WithLabel(nd, a, k, m) == WithLabel(nd, b, k, m)
  {
    if k > 0 { SameLabels(nd, a, b, k - 1, m); }
  }

  /** Node `v` has its turn before position `i` of level `lev`. */
  predicate Passed(level: seq<int>, lev: int, i: int, v: nat)
    requires v < |level|
  {
    0 <= level[v] < lev || (0 <= level[v] == lev && v < i)
  }

  /**
   In the middle of the labelling: the nodes passed have a label, the final one if they are in the order; primary inputs
   have label 0 and the others none.
   */
  ghost predicate LabelledTo(nodes: seq<Node>, level: seq<int>, order: seq<nat>, labels: seq<int>, lutSize: nat,
                             lev: int, i: int)
    requires Formed(nodes) && |level| == |nodes| == |labels|
  {
    forall v: nat :: v < |nodes| ==>
      if nodes[v].primaryInput then labels[v] == 0
      else if Passed(level, lev, i, v) then labels[v] >= 0 && (v in order ==> LabelRule(nodes, labels, lutSize, v))
      else labels[v] == -1
  }

  /** Labelling a node disturbs no label of the order: those nodes have only inputs of lower level. */
  lemma LabelNext(nodes: seq<Node>, level: seq<int>, order: seq<nat>, labels: seq<int>, lutSize: nat, lev: int, i: nat)
    requires Formed(nodes) && |level| == |nodes| == |labels| && Leveled(nodes, level, order)
    requires i < |nodes| && level[i] == lev >= 0 && !nodes[i].primaryInput
    requires LabelledTo(nodes, level, order, labels, lutSize, lev, i)
    ensures LabelledTo(nodes, level, order, labels[i := RuleLabel(nodes[i], labels, lutSize)], lutSize, lev, i + 1)
  {
    var next := labels[i := RuleLabel(nodes[i], labels, lutSize)];
    forall v: nat | v < |nodes| && v in order && !nodes[v].primaryInput && Passed(level, lev, i + 1, v)
      ensures LabelRule(nodes, next, lutSize, v)
    {
      assert v == i || LabelRule(nodes, labels, lutSize, v);
      LabelStays(nodes, level, order, labels, lutSize, i, v);
    }
  }

  lemma LabelStays(nodes: seq<Node>, level: seq<int>, order: seq<nat>, labels: seq<int>, lutSize: nat, i: nat, v: nat)
    requires Formed(nodes) && |level| == |nodes| == |labels| && Leveled(nodes, level, order)
    requires i < |nodes| && v < |nodes| && v in order && level[v] <= level[i]
    ensures RuleLabel(nodes[v], labels[i := RuleLabel(nodes[i], labels, lutSize)], lutSize)
         == RuleLabel(nodes[v], labels, lutSize)
  {
    var nd, next := nodes[v], labels[i := RuleLabel(nodes[i], labels, lutSize)];
    forall j: nat | j < nd.numInputs ensures Named(nd, j) && labels[nd.inputs[j]] == next[nd.inputs[j]] {
      InputBelow(nodes, level, order, v, j);
    }
    SameLabels(nd, labels, next, nd.numInputs, MaxLabel(nd, labels, nd.numInputs));
  }

  lemma LevelBounds(nodes: seq<Node>, level: seq<int>, order: seq<nat>, v: nat)
    requires Formed(nodes) && |level| == |nodes| && Leveled(nodes, level, order) && v in order && v < |nodes|
    ensures 0 <= level[v] < |nodes|
  {
    DistinctBelow(order, |nodes|);
    var i: nat :| i < |order| && order[i] == v;
    assert Settled(nodes, level, order, i);
  }

  /** What the labelling leaves at the nodes outside the order, which kept the level they had. */
  ghost predicate Unreached(nodes: seq<Node>, level: seq<int>, labels: seq<int>, v: nat)
    requires |level| == |nodes| == |labels| && v < |nodes|
  {
    if nodes[v].primaryInput then labels[v] == 0
    else if 0 <= level[v] < |nodes| then labels[v] >= 0
    else labels[v] == -1
  }

  lemma AllLabelled(nodes: seq<Node>, level: seq<int>, order: seq<nat>, labels: seq<int>, lutSize: nat)
    requires Formed(nodes) && |level| == |nodes| == |labels| && Leveled(nodes, level, order)
    requires LabelledTo(nodes, level, order, labels, lutSize, |nodes|, 0)
    ensures Labelled(nodes, order, labels, lutSize)
    ensures forall v: nat :: v < |nodes| && v !in order ==> Unreached(nodes, level, labels, v)
  {
    forall v: nat | v < |nodes| && v in order ensures LabelRule(nodes, labels, lutSize, v) {
      LevelBounds(nodes, level, order, v);
      assert Passed(level, |nodes|, 0, v);
    }
    forall v: nat | v < |nodes| && v !in order ensures Unreached(nodes, level, labels, v) {
      assert Passed(level, |nodes|, 0, v) <==> 0 <= level[v] < |nodes|;
    }
  }

  // ---------------------------------------------------------------- the code

  class BoolNetwork {
    var nodes: seq<Node>
    var level: seq<int>
    var primaryInputs: nat

    ghost predicate Valid() reads this {
      Formed(nodes) && |level| == |nodes| <= MAX_NODES
    }

    constructor ()
      ensures Valid() && nodes == [] && primaryInputs == 0
    {
      nodes, level, primaryInputs := [], [], 0;
    }

    method AddNode(kind: GateType) returns (id: int)
      requires Valid()
      modifies this`nodes, this`level
      ensures Valid()
      ensures |old(nodes)| >= MAX_NODES ==> id == -1 && nodes == old(nodes) && level == old(level)
      ensures |old(nodes)| < MAX_NODES ==>
                && id == |old(nodes)| && level == old(level) + [-1]
                && nodes == old(nodes) + [Node(kind, [-1, -1, -1, -1], 0, false, false, 0)]
    {
      if |nodes| >= MAX_NODES {
        return -1;
      }
      id := |nodes|;
      nodes := nodes + [NewNode(kind)];
      level := level + [-1];
    }

    /** Wires `from` to an input slot of `to`, and counts the reference. */
    method AddEdge(from: nat, to: nat, slot: nat)
      requires Valid() && from < |nodes| && to < |nodes| && slot < FANIN
      modifies this`nodes
      ensures Valid() && |nodes| == |old(nodes)|
      ensures forall v :: 0 <= v < |nodes| ==>
                var was := old(nodes)[v];
                nodes[v] == was.(refs := if v == from then was.refs + 1 else was.refs,
                                 inputs := if v == to then was.inputs[slot := from] else was.inputs,
                                 numInputs := if v == to && slot >= was.numInputs then slot + 1 else was.numInputs)
    {
      var nd := nodes[to];
      nd := nd.(inputs := nd.inputs[slot := from]);
      if slot >= nd.numInputs {
        nd := nd.(numInputs := slot + 1);
      }
      nodes := nodes[to := nd];
      nodes := nodes[from := nodes[from].(refs := nodes[from].refs + 1)];
    }

    /** Marks a node, and counts it again when it was marked before. */
    method SetPrimaryInput(v: nat)
      requires Valid() && v < |nodes|
      modifies this`nodes, this`primaryInputs
      ensures Valid() && nodes == old(nodes)[v := old(nodes)[v].(primaryInput := true)]
      ensures primaryInputs == old(primaryInputs) + 1
    {
      nodes := nodes[v := nodes[v].(primaryInput := true)];
      primaryInputs := primaryInputs + 1;
    }

    /** Queues the nodes whose last missing input is `u`. */
    method Release(u: nat, inDeg: array<int>, queue: array<nat>, tail: nat, ghost done: seq<nat>) returns (newTail: nat)
      requires Valid() && u < |nodes| && u !in done && inDeg.Length == |nodes| == queue.Length && tail <= queue.Length
      requires Tracked(nodes, inDeg[..], queue[..tail], done)
      modifies inDeg, queue
      ensures tail <= newTail <= queue.Length && queue[..tail] == old(queue[..tail])
      ensures Tracked(nodes, inDeg[..], queue[..newTail], done + [u])
    {
      newTail := tail;
      ghost var base := inDeg[..];
      var v := 0;
      while v < |nodes|
        invariant 0 <= v <= |nodes| && tail <= newTail <= queue.Length && queue[..tail] == old(queue[..tail])
        invariant forall w :: 0 <= w < |nodes| ==>
                    inDeg[w] == base[w] - (if w < v then Uses(nodes[w], u, nodes[w].numInputs) else 0)
        invariant forall w: nat :: w < |nodes| ==> (w in queue[..newTail] <==> inDeg[w] == 0)
        invariant Simple(queue[..newTail]) && forall i :: 0 <= i < newTail ==> queue[i] < |nodes|
      {
        newTail := ReleaseOne(u, v, inDeg, queue, newTail, done);
        v := v + 1;
      }
      forall w | 0 <= w < |nodes| ensures inDeg[w] == Waiting(nodes[w], done + [u], nodes[w].numInputs) {
        WaitingForOneLess(nodes[w], done, u, nodes[w].numInputs);
      }
    }

    /** Counts `u` off the slots of `v` that name it. */
    method ReleaseOne(u: nat, v: nat, inDeg: array<int>, queue: array<nat>, tail: nat, ghost done: seq<nat>)
      returns (newTail: nat)
      requires Valid() && v < |nodes| && u !in done && inDeg.Length == |nodes| == queue.Length && tail <= queue.Length
      requires inDeg[v] == Waiting(nodes[v], done, nodes[v].numInputs)
      requires Simple(queue[..tail]) && forall i :: 0 <= i < tail ==> queue[i] < |nodes|
      requires forall w: nat :: w < |nodes| ==> (w in queue[..tail] <==> inDeg[w] == 0)
      modifies inDeg, queue
      ensures tail <= newTail <= queue.Length && queue[..tail] == old(queue[..tail])
      ensures inDeg[v] == old(inDeg[v]) - Uses(nodes[v], u, nodes[v].numInputs)
      ensures forall w :: 0 <= w < |nodes| && w != v ==> inDeg[w] == old(inDeg[w])
      ensures forall w: nat :: w < |nodes| ==> (w in queue[..newTail] <==> inDeg[w] == 0)
      ensures Simple(queue[..newTail]) && forall i :: 0 <= i < newTail ==> queue[i] < |nodes|
    {
      newTail := tail;
      ghost var nd := nodes[v];
      WaitingForOneLess(nd, done, u, nd.numInputs);
      var j := 0;
      while j < nodes[v].numInputs
        invariant 0 <= j <= nd.numInputs && tail <= newTail <= queue.Length && queue[..tail] == old(queue[..tail])
        invariant inDeg[v] == old(inDeg[v]) - Uses(nd, u, j)
        invariant forall w :: 0 <= w < |nodes| && w != v ==> inDeg[w] == old(inDeg[w])
        invariant forall w: nat :: w < |nodes| ==> (w in queue[..newTail] <==> inDeg[w] == 0)
        invariant Simple(queue[..newTail]) && forall i :: 0 <= i < newTail ==> queue[i] < |nodes|
      {
        UsesGrow(nd, u, j + 1, nd.numInputs);
        if nodes[v].inputs[j] == u {
          ghost var before := queue[..newTail];
          assert v !in before;
          inDeg[v] := inDeg[v] - 1;
          if inDeg[v] == 0 {
            DistinctBelow(before + [v], |nodes|);
            queue[newTail] := v;
            newTail := newTail + 1;
            assert queue[..newTail] == before + [v];
          }
        }
        j := j + 1;
      }
    }

    /** The counters and the queue before any node is handled; nodes without inputs get level 0. */
    method Start(inDeg: array<int>, queue: array<nat>) returns (tail: nat)
      requires Valid() && inDeg.Length == |nodes| == queue.Length
      modifies this`level, inDeg, queue
      ensures Valid() && tail <= queue.Length && Tracked(nodes, inDeg[..], queue[..tail], [])
      ensures forall v :: 0 <= v < |nodes| ==> level[v] == if nodes[v].numInputs == 0 then 0 else old(level)[v]
    {
      var i := 0;
      while i < |nodes|
        invariant 0 <= i <= |nodes| && level == old(level) && forall v :: 0 <= v < i ==> inDeg[v] == nodes[v].numInputs
      {
        inDeg[i] := nodes[i].numInputs;
        i := i + 1;
      }
      tail := 0;
      i := 0;
      while i < |nodes|
        invariant 0 <= i <= |nodes| && tail <= i && Valid()
        invariant forall v :: 0 <= v < |nodes| ==>
                    && inDeg[v] == nodes[v].numInputs
                    && level[v] == if v < i && nodes[v].numInputs == 0 then 0 else old(level)[v]
        invariant Simple(queue[..tail]) && forall k :: 0 <= k < tail ==> queue[k] < i
        invariant forall v: nat :: v < |nodes| ==> (v in queue[..tail] <==> v < i && inDeg[v] == 0)
      {
        if inDeg[i] == 0 {
          ghost var before := queue[..tail];
          level := level[i := 0];
          queue[tail] := i;
          tail := tail + 1;
          assert queue[..tail] == before + [i];
        }
        i := i + 1;
      }
      forall v | 0 <= v < |nodes| ensures inDeg[v] == Waiting(nodes[v], [], nodes[v].numInputs) {
        WaitingForAll(nodes[v], nodes[v].numInputs);
      }
    }

    /** The largest level among the inputs of `u`. */
    method LargestFanin(u: nat) returns (m: int)
      requires Valid() && u < |nodes|
      ensures m == MaxFanin(nodes[u], level, nodes[u].numInputs)
    {
      m := -1;
      var j := 0;
      while j < nodes[u].numInputs
        invariant 0 <= j <= nodes[u].numInputs && m == MaxFanin(nodes[u], level, j)
      {
        var f := nodes[u].inputs[j];
        if f >= 0 && level[f] > m {
          m := level[f];
        }
        j := j + 1;
      }
    }

    /** Gives `u` its level, once all its inputs have theirs. */
    method SetLevel(u: nat, ghost done: seq<nat>)
      requires Valid() && u < |nodes| && u !in done && Ready(nodes[u], done) && Leveled(nodes, level, done)
      modifies this`level
      ensures Valid() && Leveled(nodes, level, done + [u]) && level == old(level)[u := level[u]]
    {
      LevelNext(nodes, level, done, u);
      var m := LargestFanin(u);
      level := level[u := m + 1];
    }

    /** Gives the node at the head of the queue its level and counts it off. */
    method Handle(inDeg: array<int>, queue: array<nat>, head: nat, tail: nat, ghost done: seq<nat>)
      returns (newTail: nat)
      requires Valid() && inDeg.Length == |nodes| == queue.Length && head < tail <= queue.Length
      requires done == queue[..tail][..head]
      requires Tracked(nodes, inDeg[..], queue[..tail], done) && Leveled(nodes, level, done)
      modifies this`level, inDeg, queue
      ensures Valid() && tail <= newTail <= queue.Length && queue[..tail] == old(queue[..tail])
      ensures Tracked(nodes, inDeg[..], queue[..newTail], done + [queue[head]])
              && Leveled(nodes, level, done + [queue[head]])
      ensures queue[head] < |nodes| && level == old(level)[queue[head] := level[queue[head]]]
    {
      var u := queue[head];
      ghost var q := queue[..tail];
      assert q[head] == u;
      HeadIsReady(nodes, inDeg[..], q, head);
      SetLevel(u, done);
      newTail := Release(u, inDeg, queue, tail, done);
      assert queue[head] == queue[..tail][head] == u;
    }

    /** Handles the queue to its end. */
    method Spread(inDeg: array<int>, queue: array<nat>, start: nat) returns (ghost order: seq<nat>)
      requires Valid() && inDeg.Length == |nodes| == queue.Length && start <= queue.Length
      requires Tracked(nodes, inDeg[..], queue[..start], [])
      modifies this`level, inDeg, queue
      ensures Valid() && Leveled(nodes, level, order) && Complete(nodes, order)
      ensures queue[..start] == old(queue[..start]) && old(queue[..start]) <= order
      ensures forall v: nat :: v < |nodes| && v !in order ==> level[v] == old(level)[v]
    {
      var head, tail := 0, start;
      while head < tail
        invariant 0 <= head <= tail <= queue.Length && start <= tail && Valid() && queue[..start] == old(queue[..start])
        invariant Tracked(nodes, inDeg[..], queue[..tail], queue[..head])
        invariant Leveled(nodes, level, queue[..head])
        invariant forall v: nat :: v < |nodes| && v !in queue[..head] ==> level[v] == old(level)[v]
        decreases |nodes| - head
      {
        ghost var before, done := queue[..tail], queue[..head];
        assert before[..head] == done && before[..start] == queue[..start];
        tail := Handle(inDeg, queue, head, tail, done);
        assert before == queue[..tail][..|before|] && queue[..head + 1] == before[..head + 1] == done + [queue[head]];
        assert queue[..start] == before[..start];
        head := head + 1;
      }
      order := queue[..head];
      NothingReady(nodes, inDeg[..], order);
    }

    /** Levels, in an order in which every node follows its inputs; nodes never reached keep the level they had. */
    method Levelize() returns (ghost order: seq<nat>)
      requires Valid()
      modifies this`level
      ensures Valid() && Leveled(nodes, level, order) && Complete(nodes, order)
      ensures forall v: nat :: v < |nodes| && v !in order ==> level[v] == old(level)[v]
      ensures Everywhere(nodes, order) <==> exists rank :: Ranked(nodes, rank)
    {
      var inDeg := new int[|nodes|];
      var queue := new nat[|nodes|];
      var tail := Start(inDeg, queue);
      order := Spread(inDeg, queue, tail);
      InputlessReached(nodes, order);
      AllLeveledIff(nodes, level, order);
    }

    /** The label the rule gives node `i`. */
    method ComputeLabel(i: nat, lutSize: nat, labels: array<int>) returns (r: int)
      requires Valid() && i < |nodes| == labels.Length
      ensures r == RuleLabel(nodes[i], labels[..], lutSize)
    {
      var nd := nodes[i];
      ghost var now := labels[..];
      var named, most, count := 0, 0, 0;
      var j := 0;
      while j < nd.numInputs
        invariant 0 <= j <= nd.numInputs && named == NamedInputs(nd, j)
        invariant most == MaxLabel(nd, now, j) && count == WithLabel(nd, now, j, most)
      {
        var f := nd.inputs[j];
        if f >= 0 {
          named := named + 1;
          if labels[f] > most {
            NoneAboveMax(nd, now, j, labels[f]);
            most := labels[f];
            count := 1;
          } else if labels[f] == most {
            count := count + 1;
          }
        }
        j := j + 1;
      }
      r := if named == 0 then 0 else if count >= lutSize then most + 1 else most;
    }

    /** Primary inputs start with label 0, the others with none. */
    method InitLabels(labels: array<int>)
      requires Valid() && labels.Length == |nodes|
      modifies labels
      ensures forall v :: 0 <= v < |nodes| ==> labels[v] == if nodes[v].primaryInput then 0 else -1
    {
      var i := 0;
      while i < |nodes|
        invariant 0 <= i <= |nodes|
        invariant forall v :: 0 <= v < i ==> labels[v] == if nodes[v].primaryInput then 0 else -1
      {
        labels[i] := if nodes[i].primaryInput then 0 else -1;
        i := i + 1;
      }
    }

    /** Labels the nodes of one level that have no label yet. */
    method LabelLevel(lev: nat, lutSize: nat, labels: array<int>, ghost order: seq<nat>)
      requires Valid() && labels.Length == |nodes| && Leveled(nodes, level, order)
      requires LabelledTo(nodes, level, order, labels[..], lutSize, lev, 0)
      modifies labels
      ensures LabelledTo(nodes, level, order, labels[..], lutSize, lev + 1, 0)
    {
      var i := 0;
      while i < |nodes|
        invariant 0 <= i <= |nodes|
        invariant LabelledTo(nodes, level, order, labels[..], lutSize, lev, i)
      {
        ghost var now := labels[..];
        if level[i] == lev && labels[i] < 0 {
          var next := ComputeLabel(i, lutSize, labels);
          LabelNext(nodes, level, order, now, lutSize, lev, i);
          labels[i] := next;
          assert labels[..] == now[i := next];
        }
        i := i + 1;
      }
    }

    /**
     Labels level by level. Every node that gets a level follows the rule; of the others, primary inputs get 0, and
     those left without a level get no label.
     */
    method FlowmapLabel(lutSize: nat, labels: array<int>) returns (ghost order: seq<nat>)
      requires Valid() && 2 <= lutSize <= MAX_LUT && labels.Length == |nodes|
      modifies this`level, labels
      ensures Valid() && Leveled(nodes, level, order) && Complete(nodes, order)
      ensures Everywhere(nodes, order) <==> exists rank :: Ranked(nodes, rank)
      ensures forall v: nat :: v < |nodes| && v !in order ==> level[v] == old(level)[v]
      ensures Labelled(nodes, order, labels[..], lutSize)
      ensures forall v: nat :: v < |nodes| && v !in order ==> Unreached(nodes, level, labels[..], v)
    {
      order := Levelize();
      LabelAll(lutSize, labels, order);
    }

    method LabelAll(lutSize: nat, labels: array<int>, ghost order: seq<nat>)
      requires Valid() && labels.Length == |nodes| && Leveled(nodes, level, order)
      modifies labels
      ensures Labelled(nodes, order, labels[..], lutSize)
      ensures forall v: nat :: v < |nodes| && v !in order ==> Unreached(nodes, level, labels[..], v)
    {
      InitLabels(labels);
      var lev := 0;
      while lev < |nodes|
        invariant 0 <= lev <= |nodes|
        invariant LabelledTo(nodes, level, order, labels[..], lutSize, lev, 0)
      {
        LabelLevel(lev, lutSize, labels, order);
        lev := lev + 1;
      }
      AllLabelled(nodes, level, order, labels[..], lutSize);
    }
  }
}
