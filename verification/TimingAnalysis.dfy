/**
 The full timing analysis, and what its figures mean: the slack / critical-path duality.
 */
module TimingAnalysis {
  import opened TimingPaths
  import opened TimingFpga
  import opened TimingRequired

  class StaResult {
    var criticalPathDelay: real
    var worstSlack: Time
    var worstSlackNode: nat
    var totalNegativeSlack: real
    var numSetupViolations: nat
    var totalWireDelay: real
    var totalLogicDelay: real
    var fmax: real

    constructor () {
      criticalPathDelay, worstSlack, worstSlackNode, totalNegativeSlack := 0.0, At(0.0), 0, 0.0;
      numSetupViolations, totalWireDelay, totalLogicDelay, fmax := 0, 0.0, 0.0, 0.0;
    }

    method Clear()
      modifies this
      ensures criticalPathDelay == 0.0 && worstSlack == At(0.0) && worstSlackNode == 0 && totalNegativeSlack == 0.0
      ensures numSetupViolations == 0 && totalWireDelay == 0.0 && totalLogicDelay == 0.0 && fmax == 0.0
    {
      criticalPathDelay, worstSlack, worstSlackNode, totalNegativeSlack := 0.0, At(0.0), 0, 0.0;
      numSetupViolations, totalWireDelay, totalLogicDelay, fmax := 0, 0.0, 0.0, 0.0;
    }
  }

  // ---------------------------------------------------------------- specification

  /** Every node holds its latest arrival, its tightest requirement and their difference. */
  ghost predicate TimedAt(nodes: seq<TimingNode>, edges: seq<TimingEdge>, tc: Constraints, start: seq<Ext>, v: nat)
    requires v < |nodes|
  {
    && LatestArrival(edges, start, v, nodes[v].arrival)
    && nodes[v].required.At? && TightestRequired(nodes, edges, tc, v, nodes[v].required.value)
    && nodes[v].slack == At(nodes[v].required.value - nodes[v].arrival)
  }

  ghost predicate Timed(nodes: seq<TimingNode>, edges: seq<TimingEdge>, tc: Constraints, start: seq<Ext>) {
    && |start| == |nodes|
    && forall v: nat {:trigger TimedAt(nodes, edges, tc, start, v)} :: v < |nodes| ==>
         TimedAt(nodes, edges, tc, start, v)
  }

  ghost function NegativeSlack(nodes: seq<TimingNode>, k: nat): real
    requires k <= |nodes|
  {
    if k == 0 then 0.0
    else NegativeSlack(nodes, k - 1) + (if Before(nodes[k - 1].slack, At(0.0)) then nodes[k - 1].slack.value else 0.0)
  }

  ghost function Violations(nodes: seq<TimingNode>, k: nat): nat
    requires k <= |nodes|
  {
    if k == 0 then 0 else Violations(nodes, k - 1) + (if Before(nodes[k - 1].slack, At(0.0)) then 1 else 0)
  }

  ghost function WireDelay(edges: seq<TimingEdge>, k: nat): real
    requires k <= |edges|
  {
    if k == 0 then 0.0 else WireDelay(edges, k - 1) + edges[k - 1].wireDelay
  }

  ghost function LogicDelay(edges: seq<TimingEdge>, k: nat): real
    requires k <= |edges|
  {
    if k == 0 then 0.0 else LogicDelay(edges, k - 1) + edges[k - 1].logicDelay
  }

  /** `v` is the first of the first `k` nodes with the least slack among them. */
  ghost predicate FirstLeastSlack(nodes: seq<TimingNode>, k: nat, v: nat, w: Time)
    requires k <= |nodes|
  {
    && v < k && nodes[v].slack == w
    && (forall u :: 0 <= u < k ==> !Before(nodes[u].slack, w))
    && (forall u :: 0 <= u < v ==> Before(w, nodes[u].slack))
  }

  ghost predicate LatestOfAll(nodes: seq<TimingNode>, d: real) {
    && (forall v :: 0 <= v < |nodes| ==> nodes[v].arrival <= d)
    && (exists v :: 0 <= v < |nodes| && nodes[v].arrival == d)
  }

  // ---------------------------------------------------------------- the analysis

  method ComputeSlack(tg: TimingGraph)
    requires tg.Valid()
    modifies tg`nodes
    ensures tg.Valid() && SameGraph(old(tg.nodes), tg.nodes)
    ensures forall v :: 0 <= v < |tg.nodes| ==>
              tg.nodes[v] == old(tg.nodes)[v].(slack := Minus(old(tg.nodes)[v].required, old(tg.nodes)[v].arrival))
  {
    ghost var before := tg.nodes;
    var i := 0;
    while i < |tg.nodes|
      invariant 0 <= i <= |tg.nodes| == |before|
      invariant forall v :: 0 <= v < |before| ==>
        tg.nodes[v] == if v < i then before[v].(slack := Minus(before[v].required, before[v].arrival)) else before[v]
    {
      tg.nodes := tg.nodes[i := tg.nodes[i].(slack := Minus(tg.nodes[i].required, tg.nodes[i].arrival))];
      i := i + 1;
    }
    SameGraphWired(before, tg.nodes, tg.edges);
  }

  method SummarizeSlack(tg: TimingGraph, result: StaResult)
    requires |tg.nodes| > 0 && forall v :: 0 <= v < |tg.nodes| ==> tg.nodes[v].slack.At?
    modifies result`worstSlack, result`worstSlackNode, result`totalNegativeSlack, result`numSetupViolations
    ensures FirstLeastSlack(tg.nodes, |tg.nodes|, result.worstSlackNode, result.worstSlack)
    ensures result.totalNegativeSlack == NegativeSlack(tg.nodes, |tg.nodes|)
    ensures result.numSetupViolations == Violations(tg.nodes, |tg.nodes|)
  {
    result.worstSlack := Unbounded;
    result.totalNegativeSlack := 0.0;
    result.numSetupViolations := 0;
    var i := 0;
    while i < |tg.nodes|
      invariant 0 <= i <= |tg.nodes|
      invariant if i == 0 then result.worstSlack.Unbounded?
                else FirstLeastSlack(tg.nodes, i, result.worstSlackNode, result.worstSlack)
      invariant result.totalNegativeSlack == NegativeSlack(tg.nodes, i)
      invariant result.numSetupViolations == Violations(tg.nodes, i)
    {
      if Before(tg.nodes[i].slack, result.worstSlack) {
        result.worstSlack := tg.nodes[i].slack;
        result.worstSlackNode := i;
      }
      if Before(tg.nodes[i].slack, At(0.0)) {
        result.totalNegativeSlack := result.totalNegativeSlack + tg.nodes[i].slack.value;
        result.numSetupViolations := result.numSetupViolations + 1;
      }
      i := i + 1;
    }
  }

  method SummarizeDelays(tg: TimingGraph, result: StaResult)
    modifies result`totalWireDelay, result`totalLogicDelay
    ensures result.totalWireDelay == WireDelay(tg.edges, |tg.edges|)
    ensures result.totalLogicDelay == LogicDelay(tg.edges, |tg.edges|)
  {
    result.totalWireDelay, result.totalLogicDelay := 0.0, 0.0;
    var i := 0;
    while i < |tg.edges|
      invariant 0 <= i <= |tg.edges|
      invariant result.totalWireDelay == WireDelay(tg.edges, i)
      invariant result.totalLogicDelay == LogicDelay(tg.edges, i)
    {
      result.totalWireDelay := result.totalWireDelay + tg.edges[i].wireDelay;
      result.totalLogicDelay := result.totalLogicDelay + tg.edges[i].logicDelay;
      i := i + 1;
    }
  }

  /** The delay part of the critical-path search; nothing is found when every arrival is below zero. */
  method CriticalPathDelay(tg: TimingGraph, result: StaResult) returns (ret: int)
    modifies result`criticalPathDelay
    ensures (exists v :: 0 <= v < |tg.nodes| && tg.nodes[v].arrival > -1.0) ==>
              ret == 0 && LatestOfAll(tg.nodes, result.criticalPathDelay)
    ensures !(exists v :: 0 <= v < |tg.nodes| && tg.nodes[v].arrival > -1.0) ==>
              ret == -1 && result.criticalPathDelay == old(result.criticalPathDelay)
  {
    var worst: int, maxArr := -1, -1.0;
    var i := 0;
    while i < |tg.nodes|
      invariant 0 <= i <= |tg.nodes| && -1 <= worst < i
      invariant forall v :: 0 <= v < i ==> tg.nodes[v].arrival <= maxArr
      invariant if worst < 0 then maxArr == -1.0 else maxArr > -1.0 && tg.nodes[worst].arrival == maxArr
    {
      if tg.nodes[i].arrival > maxArr {
        maxArr := tg.nodes[i].arrival;
        worst := i;
      }
      i := i + 1;
    }
    if worst < 0 {
      return -1;
    }
    result.criticalPathDelay := maxArr;
    return 0;
  }

  /** The result holds the summary figures of a timed graph. */
  ghost predicate Summary(nodes: seq<TimingNode>, edges: seq<TimingEdge>, r: StaResult) reads r {
    && FirstLeastSlack(nodes, |nodes|, r.worstSlackNode, r.worstSlack)
    && r.totalNegativeSlack == NegativeSlack(nodes, |nodes|)
    && r.numSetupViolations == Violations(nodes, |nodes|)
    && r.totalWireDelay == WireDelay(edges, |edges|)
    && r.totalLogicDelay == LogicDelay(edges, |edges|)
    && LatestOfAll(nodes, r.criticalPathDelay)
    && r.fmax == if r.criticalPathDelay > 0.0 then 1000.0 / r.criticalPathDelay else 0.0
  }

  method Summarize(tg: TimingGraph, result: StaResult)
    requires |tg.nodes| > 0 && forall v :: 0 <= v < |tg.nodes| ==> tg.nodes[v].slack.At?
    requires exists v :: 0 <= v < |tg.nodes| && tg.nodes[v].arrival > -1.0
    requires result.fmax == 0.0
    modifies result
    ensures Summary(tg.nodes, tg.edges, result)
  {
    SummarizeSlack(tg, result);
    SummarizeDelays(tg, result);
    var _ := CriticalPathDelay(tg, result);
    if result.criticalPathDelay > 0.0 {
      result.fmax := 1000.0 / result.criticalPathDelay;
    }
  }

  /** Arrivals, requirements and slacks; the result is cleared and, on success, filled in. */
  method Analyze(tg: TimingGraph, tc: Constraints, result: StaResult) returns (ret: int)
    requires tg.Valid()
    modifies tg`nodes, result
    ensures tg.Valid() && SameGraph(old(tg.nodes), tg.nodes)
    ensures ret == 0 || ret == -1
    ensures ret == 0 <==> tg.nodes != [] && Acyclic(tg.edges)
    ensures ret == 0 ==> Timed(tg.nodes, tg.edges, tc, StartArrivals(old(tg.nodes)))
    ensures ret == 0 ==> EndpointsDue(tg.nodes, tg.edges, tc)
    ensures ret == 0 ==> Summary(tg.nodes, tg.edges, result)
  {
    ghost var before := tg.nodes;
    result.Clear();
    ret := ComputeTimes(tg, tc);
    if ret < 0 {
      return -1;
    }
    SomeSource(before, tg.nodes, tg.edges, tc);
    AllSlacksBounded(tg.nodes, tg.edges, tc, StartArrivals(before));
    Summarize(tg, result);
    return 0;
  }

  method ComputeTimes(tg: TimingGraph, tc: Constraints) returns (ret: int)
    requires tg.Valid()
    modifies tg`nodes
    ensures tg.Valid() && SameGraph(old(tg.nodes), tg.nodes)
    ensures ret == 0 || ret == -1
    ensures ret == 0 <==> tg.nodes != [] && Acyclic(tg.edges)
    ensures ret == 0 ==> Timed(tg.nodes, tg.edges, tc, StartArrivals(old(tg.nodes)))
    ensures ret == 0 ==> EndpointsDue(tg.nodes, tg.edges, tc)
  {
    ghost var start := StartArrivals(tg.nodes);
    ret := ComputeArrival(tg);
    if ret < 0 {
      return -1;
    }
    ghost var arrived := tg.nodes;
    ret := ComputeRequired(tg, tc);
    ghost var required := tg.nodes;
    ComputeSlack(tg);
    SlackKeepsTimes(arrived, required, tg.nodes, tg.edges, tc, start);
  }

  lemma AllSlacksBounded(nodes: seq<TimingNode>, edges: seq<TimingEdge>, tc: Constraints, start: seq<Ext>)
    requires Timed(nodes, edges, tc, start)
    ensures forall v :: 0 <= v < |nodes| ==> nodes[v].slack.At?
  {
    forall v | 0 <= v < |nodes| ensures nodes[v].slack.At? {
      assert TimedAt(nodes, edges, tc, start, v);
    }
  }

  /** Requirements depend on the nodes through their clock domains only. */
  lemma TightestSameDomains(a: seq<TimingNode>, b: seq<TimingNode>, edges: seq<TimingEdge>, tc: Constraints, v: nat,
                            x: real)
    requires |a| == |b| && forall t :: 0 <= t < |a| ==> a[t].clkDomain == b[t].clkDomain
    requires TightestRequired(a, edges, tc, v, x)
    ensures TightestRequired(b, edges, tc, v, x)
  {
  }

  lemma SlackKeepsTimes(arrived: seq<TimingNode>, required: seq<TimingNode>, nodes: seq<TimingNode>,
                        edges: seq<TimingEdge>, tc: Constraints, start: seq<Ext>)
    requires OnlyRequired(arrived, required) && |start| == |nodes| == |required|
    requires forall v :: 0 <= v < |nodes| ==>
               nodes[v] == required[v].(slack := Minus(required[v].required, required[v].arrival))
    requires forall v: nat :: v < |nodes| ==> LatestArrival(edges, start, v, arrived[v].arrival)
    requires forall v: nat :: v < |nodes| ==>
               required[v].required.At? && TightestRequired(required, edges, tc, v, required[v].required.value)
    ensures Timed(nodes, edges, tc, start)
  {
    forall v: nat | v < |nodes| ensures TimedAt(nodes, edges, tc, start, v) {
      SlackKeepsTime(arrived, required, nodes, edges, tc, start, v);
    }
  }

  lemma {:induction false} SlackKeepsTime(arrived: seq<TimingNode>, required: seq<TimingNode>, nodes: seq<TimingNode>,
                       edges: seq<TimingEdge>, tc: Constraints, start: seq<Ext>, v: nat)
    requires OnlyRequired(arrived, required) && |start| == |nodes| == |required| && v < |nodes|
    requires forall v :: 0 <= v < |nodes| ==>
               nodes[v] == required[v].(slack := Minus(required[v].required, required[v].arrival))
    requires LatestArrival(edges, start, v, arrived[v].arrival)
    requires required[v].required.At? && TightestRequired(required, edges, tc, v, required[v].required.value)
    ensures TimedAt(nodes, edges, tc, start, v)
  {
    TightestSameDomains(required, nodes, edges, tc, v, required[v].required.value);
  }

  /** Some node without fanin starts at zero, so a critical delay is always found. */
  lemma SomeSource(before: seq<TimingNode>, nodes: seq<TimingNode>, edges: seq<TimingEdge>, tc: Constraints)
    requires Wired(before, edges) && Acyclic(edges) && nodes != [] && Timed(nodes, edges, tc, StartArrivals(before))
    ensures exists v :: 0 <= v < |nodes| && nodes[v].arrival > -1.0
  {
    var F := Flipped(edges);
    FlippedAcyclic(edges);
    assert PathFromTo(F, [], 0, 0);
    var q, v := ReachesEndpoint(F, |nodes|, [], 0, 0);
    FaninCount(before, edges, v);
    assert EdgesInto(edges, v) == {};
    var start := StartArrivals(before);
    assert TimedAt(nodes, edges, tc, start, v);
    assert PathFromTo(edges, [], v, v);
    assert AtMost(Plus(start[v], Delay(edges, [])), Fin(nodes[v].arrival));
  }

  // ---------------------------------------------------------------- what the figures mean

  /** The nodes below `k` whose required time is before the latest arrival. */
  ghost function Late(nodes: seq<TimingNode>, k: nat): set<nat> {
    set v: nat | v < k && v < |nodes| && nodes[v].slack.At? && nodes[v].slack.value < 0.0
  }

  lemma {:induction false} ViolationsAreCounted(nodes: seq<TimingNode>, k: nat)
    requires k <= |nodes|
    ensures Violations(nodes, k) == |Late(nodes, k)|
  {
    if k == 0 {
      assert Late(nodes, 0) == {};
    } else {
      ViolationsAreCounted(nodes, k - 1);
      if Before(nodes[k - 1].slack, At(0.0)) {
        assert Late(nodes, k) == Late(nodes, k - 1) + {k - 1};
      } else {
        assert Late(nodes, k) == Late(nodes, k - 1);
      }
    }
  }

  /** One slack changed changes the total by what is negative of it; with no violation the total is zero. */
  lemma {:induction false} NegativeSlackMoves(nodes: seq<TimingNode>, k: nat, v: nat, x: real)
    requires v < |nodes| && k <= |nodes| && nodes[v].slack.At?
    ensures var after := nodes[v := nodes[v].(slack := At(x))];
            && (Violations(nodes, k) == 0 ==> NegativeSlack(nodes, k) == 0.0)
            && NegativeSlack(after, k) - NegativeSlack(nodes, k) ==
               if v < k then (if x < 0.0 then x else 0.0)
                             - (if nodes[v].slack.value < 0.0 then nodes[v].slack.value else 0.0)
               else 0.0
  {
    if k > 0 {
      NegativeSlackMoves(nodes, k - 1, v, x);
    }
  }

  /** One edge more adds its two delays; without edges the totals are zero. */
  lemma {:induction false} DelaysAdd(edges: seq<TimingEdge>, e: TimingEdge, k: nat)
    requires k <= |edges|
    ensures WireDelay([], 0) == LogicDelay([], 0) == 0.0
    ensures WireDelay([e] + edges, k + 1) == e.wireDelay + WireDelay(edges, k)
    ensures LogicDelay([e] + edges, k + 1) == e.logicDelay + LogicDelay(edges, k)
  {
    if k > 0 {
      DelaysAdd(edges, e, k - 1);
    }
  }

  /** `w` is the least margin, period minus start minus delay, over all paths to an endpoint. */
  ghost predicate LeastMargin(nodes: seq<TimingNode>, edges: seq<TimingEdge>, tc: Constraints, start: seq<Ext>, w: real)
    requires |start| == |nodes| && forall v :: 0 <= v < |start| ==> start[v].Fin?
  {
    && (forall s: nat, p, t: nat :: s < |nodes| && t < |nodes| && IsEndpoint(edges, t) && PathFromTo(edges, p, s, t)
          ==> w <= EndPeriod(tc, nodes[t].clkDomain) - (start[s].value + Delay(edges, p)))
    && (exists s: nat, p, t: nat :: s < |nodes| && t < |nodes| && IsEndpoint(edges, t) && PathFromTo(edges, p, s, t)
          && w == EndPeriod(tc, nodes[t].clkDomain) - (start[s].value + Delay(edges, p)))
  }

  lemma PathWithinSlack(nodes: seq<TimingNode>, edges: seq<TimingEdge>, tc: Constraints, start: seq<Ext>,
                        s: nat, p: seq<nat>, t: nat)
    requires Timed(nodes, edges, tc, start) && forall v :: 0 <= v < |start| ==> start[v].Fin?
    requires s < |nodes| && t < |nodes| && IsEndpoint(edges, t) && PathFromTo(edges, p, s, t)
    ensures nodes[t].slack.At?
    ensures nodes[t].slack.value <= EndPeriod(tc, nodes[t].clkDomain) - (start[s].value + Delay(edges, p))
  {
    assert TimedAt(nodes, edges, tc, start, t);
    assert AtMost(Plus(start[s], Delay(edges, p)), Fin(nodes[t].arrival));
    assert PathFromTo(edges, [], t, t);
    assert nodes[t].required.value <= EndPeriod(tc, nodes[t].clkDomain) - Delay(edges, []);
  }

  lemma SlackIsMarginOfPath(nodes: seq<TimingNode>, edges: seq<TimingEdge>, tc: Constraints, start: seq<Ext>, v: nat)
    returns (s: nat, p: seq<nat>, t: nat)
    requires Timed(nodes, edges, tc, start) && v < |nodes| && forall u :: 0 <= u < |start| ==> start[u].Fin?
    ensures s < |nodes| && t < |nodes| && IsEndpoint(edges, t) && PathFromTo(edges, p, s, t)
    ensures nodes[v].slack == At(EndPeriod(tc, nodes[t].clkDomain) - (start[s].value + Delay(edges, p)))
  {
    assert TimedAt(nodes, edges, tc, start, v);
    var p1, s1: nat :| s1 < |start| && PathFromTo(edges, p1, s1, v)
                       && Fin(nodes[v].arrival) == Plus(start[s1], Delay(edges, p1));
    var p2, t2: nat :| t2 < |nodes| && IsEndpoint(edges, t2) && PathFromTo(edges, p2, v, t2)
                       && nodes[v].required.value == EndPeriod(tc, nodes[t2].clkDomain) - Delay(edges, p2);
    JoinPaths(edges, p1, p2, s1, v, t2);
    s, p, t := s1, p1 + p2, t2;
  }

  /** The worst slack is the least margin of any path to an endpoint, whatever the periods and delays. */
  lemma WorstSlackIsLeastMargin(nodes: seq<TimingNode>, edges: seq<TimingEdge>, tc: Constraints, start: seq<Ext>,
                                v: nat, w: Time)
    requires Timed(nodes, edges, tc, start) && forall u :: 0 <= u < |start| ==> start[u].Fin?
    requires FirstLeastSlack(nodes, |nodes|, v, w)
    ensures w.At? && LeastMargin(nodes, edges, tc, start, w.value)
  {
    var s, p, t := SlackIsMarginOfPath(nodes, edges, tc, start, v);
    forall s: nat, p, t: nat | s < |nodes| && t < |nodes| && IsEndpoint(edges, t) && PathFromTo(edges, p, s, t)
      ensures w.value <= EndPeriod(tc, nodes[t].clkDomain) - (start[s].value + Delay(edges, p))
    {
      PathWithinSlack(nodes, edges, tc, start, s, p, t);
    }
  }

  /** `d` is the largest delay of any path in the graph. */
  ghost predicate LongestDelay(edges: seq<TimingEdge>, n: nat, d: real) {
    && (forall s: nat, p, t: nat :: s < n && t < n && PathFromTo(edges, p, s, t) ==> Delay(edges, p) <= d)
    && (exists s: nat, p, t: nat :: s < n && t < n && PathFromTo(edges, p, s, t) && d == Delay(edges, p))
  }

  ghost predicate AllZero(start: seq<Ext>) {
    forall v :: 0 <= v < |start| ==> start[v] == Fin(0.0)
  }

  /** From zeroed arrivals, the critical delay is that of the longest path. */
  lemma CriticalDelayIsLongest(nodes: seq<TimingNode>, edges: seq<TimingEdge>, tc: Constraints, start: seq<Ext>,
                               d: real)
    requires Timed(nodes, edges, tc, start) && AllZero(start) && LatestOfAll(nodes, d)
    ensures LongestDelay(edges, |nodes|, d)
  {
    forall s: nat, p, t: nat | s < |nodes| && t < |nodes| && PathFromTo(edges, p, s, t) ensures Delay(edges, p) <= d {
      assert TimedAt(nodes, edges, tc, start, t);
      assert AtMost(Plus(start[s], Delay(edges, p)), Fin(nodes[t].arrival));
    }
    var v: nat :| v < |nodes| && nodes[v].arrival == d;
    assert TimedAt(nodes, edges, tc, start, v);
    var p, s: nat :| s < |start| && PathFromTo(edges, p, s, v) && Fin(d) == Plus(start[s], Delay(edges, p));
  }

  lemma {:induction false} DelayNonNegative(edges: seq<TimingEdge>, p: seq<nat>)
    requires forall e :: 0 <= e < |edges| ==> edges[e].delay >= 0.0
    ensures Delay(edges, p) >= 0.0
  {
    if p != [] { DelayNonNegative(edges, p[..|p| - 1]); }
  }

  /** All endpoints are required by the same period. */
  ghost predicate OnePeriod(nodes: seq<TimingNode>, tc: Constraints, period: real) {
    forall t :: 0 <= t < |nodes| ==>
      var d := nodes[t].clkDomain;
      period == if 0 <= d < |tc.clockPeriods| && tc.clockPeriods[d] > 0.0 then tc.clockPeriods[d] else tc.defaultPeriod
  }

  /**
   The duality: with one clock period, non-negative delays and zeroed arrivals, the worst
   slack is the period minus the critical path delay.
   */
  lemma WorstSlackIsPeriodMinusCritical(nodes: seq<TimingNode>, edges: seq<TimingEdge>, tc: Constraints,
                                        start: seq<Ext>, period: real, v: nat, w: Time, d: real)
    requires Timed(nodes, edges, tc, start) && AllZero(start) && OnePeriod(nodes, tc, period)
    requires forall e :: 0 <= e < |edges| ==> edges[e].delay >= 0.0
    requires FirstLeastSlack(nodes, |nodes|, v, w) && LatestOfAll(nodes, d)
    ensures w == At(period - d)
  {
    WorstSlackIsLeastMargin(nodes, edges, tc, start, v, w);
    CriticalDelayIsLongest(nodes, edges, tc, start, d);
    var s, p, t := SlackIsMarginOfPath(nodes, edges, tc, start, v);
    assert Delay(edges, p) <= d;
    var u: nat :| u < |nodes| && nodes[u].arrival == d;
    assert TimedAt(nodes, edges, tc, start, u);
    var q, x: nat :| x < |nodes| && IsEndpoint(edges, x) && PathFromTo(edges, q, u, x)
                     && nodes[u].required.value == EndPeriod(tc, nodes[x].clkDomain) - Delay(edges, q);
    DelayNonNegative(edges, q);
    assert nodes[u].slack.value <= period - d;
    assert !Before(nodes[u].slack, w);
  }

  lemma {:induction false} NoViolations(nodes: seq<TimingNode>, k: nat)
    requires k <= |nodes|
    ensures Violations(nodes, k) == 0 <==> forall v :: 0 <= v < k ==> !Before(nodes[v].slack, At(0.0))
    ensures Violations(nodes, k) == 0 ==> NegativeSlack(nodes, k) == 0.0
  {
    if k > 0 { NoViolations(nodes, k - 1); }
  }

  /** No setup violation is reported exactly when the longest path fits in the period. */
  lemma {:induction false} NoViolationsIffFits(nodes: seq<TimingNode>, edges: seq<TimingEdge>, tc: Constraints,
                                               start: seq<Ext>, period: real, v: nat, w: Time, d: real)
    requires Timed(nodes, edges, tc, start) && AllZero(start) && OnePeriod(nodes, tc, period)
    requires forall e :: 0 <= e < |edges| ==> edges[e].delay >= 0.0
    requires FirstLeastSlack(nodes, |nodes|, v, w) && LatestOfAll(nodes, d)
    ensures Violations(nodes, |nodes|) == 0 <==> d <= period
    ensures LongestDelay(edges, |nodes|, d)
  {
    WorstSlackIsPeriodMinusCritical(nodes, edges, tc, start, period, v, w, d);
    CriticalDelayIsLongest(nodes, edges, tc, start, d);
    NoViolations(nodes, |nodes|);
    if d <= period {
      forall u | 0 <= u < |nodes| ensures !Before(nodes[u].slack, At(0.0)) {
        assert !Before(nodes[u].slack, w);
      }
    }
  }

  // The forward pass keeps the arrivals it finds at nodes with fanin. Starting over from
  // its own results therefore changes nothing, as long as the edges are the same.

  lemma ReanalysisIsStable(edges: seq<TimingEdge>, a: seq<TimingNode>, b: seq<TimingNode>, v: nat, x: real)
    requires |a| == |b| && v < |a| && forall u :: 0 <= u < |a| ==> b[u].fanins == a[u].fanins
    requires forall u: nat :: u < |a| ==> LatestArrival(edges, StartArrivals(a), u, b[u].arrival)
    requires LatestArrival(edges, StartArrivals(b), v, x)
    ensures x == b[v].arrival
  {
    var p, u: nat := AttainingPath(edges, StartArrivals(b), v, x);
    RestartedPathBounded(edges, a, b, p, u, v);
    var r, y: nat := AttainingPath(edges, StartArrivals(a), v, b[v].arrival);
    StartBelow(edges, a, b, y);
    PathBounded(edges, StartArrivals(b), v, x, r, y);
  }

  lemma AttainingPath(edges: seq<TimingEdge>, start: seq<Ext>, v: nat, x: real) returns (p: seq<nat>, s: nat)
    requires LatestArrival(edges, start, v, x)
    ensures s < |start| && PathFromTo(edges, p, s, v) && Fin(x) == Plus(start[s], Delay(edges, p))
  {
    p, s :| s < |start| && PathFromTo(edges, p, s, v) && Fin(x) == Plus(start[s], Delay(edges, p));
  }

  lemma PathBounded(edges: seq<TimingEdge>, start: seq<Ext>, v: nat, x: real, p: seq<nat>, s: nat)
    requires LatestArrival(edges, start, v, x) && s < |start| && PathFromTo(edges, p, s, v)
    ensures AtMost(Plus(start[s], Delay(edges, p)), Fin(x))
  {
  }

  /** A path started from a finished arrival is a longer path started from an original one. */
  lemma RestartedPathBounded(edges: seq<TimingEdge>, a: seq<TimingNode>, b: seq<TimingNode>, p: seq<nat>, u: nat,
                             v: nat)
    requires |a| == |b| && u < |a| && v < |a| && b[u].fanins == a[u].fanins && PathFromTo(edges, p, u, v)
    requires LatestArrival(edges, StartArrivals(a), u, b[u].arrival)
    requires LatestArrival(edges, StartArrivals(a), v, b[v].arrival)
    ensures AtMost(Plus(StartArrivals(b)[u], Delay(edges, p)), Fin(b[v].arrival))
  {
    var start := StartArrivals(a);
    if a[u].fanins == [] {
      assert AtMost(Plus(start[u], Delay(edges, p)), Fin(b[v].arrival));
    } else {
      var q, w: nat :| w < |a| && PathFromTo(edges, q, w, u) && Fin(b[u].arrival) == Plus(start[w], Delay(edges, q));
      JoinPaths(edges, q, p, w, u, v);
      assert AtMost(Plus(start[w], Delay(edges, q + p)), Fin(b[v].arrival));
    }
  }

  /** A finished arrival is at least what the pass started its node from. */
  lemma StartBelow(edges: seq<TimingEdge>, a: seq<TimingNode>, b: seq<TimingNode>, y: nat)
    requires |a| == |b| && y < |a| && b[y].fanins == a[y].fanins
    requires LatestArrival(edges, StartArrivals(a), y, b[y].arrival)
    ensures AtMost(StartArrivals(a)[y], StartArrivals(b)[y])
  {
    assert PathFromTo(edges, [], y, y);
    assert AtMost(Plus(StartArrivals(a)[y], Delay(edges, [])), Fin(b[y].arrival));
  }
}
