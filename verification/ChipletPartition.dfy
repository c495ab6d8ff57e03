/**
 Assigning design blocks to chiplets: each block, in order, goes to the chiplet with the
 least area so far. The loads this gives are compared with those of any other assignment.
 */
module ChipletPartition {

  const MAX_BLOCKS := 32

  datatype BlockType = Logic | Memory | Io | Accel

  datatype Block = Block(id: nat, kind: BlockType, area: real, power: real, partition: int)

  // ---------------------------------------------------------------- loads

  /** Area given to part `p` by the first `k` choices. */
  function Load(areas: seq<real>, choice: seq<int>, k: nat, p: int): real
    requires k <= |areas| && k <= |choice|
  {
    if k == 0 then 0.0
    else Load(areas, choice, k - 1, p) + (if choice[k - 1] == p then areas[k - 1] else 0.0)
  }

  function Total(areas: seq<real>, k: nat): real
    requires k <= |areas|
  {
    if k == 0 then 0.0 else Total(areas, k - 1) + areas[k - 1]
  }

  function Largest(areas: seq<real>, k: nat): (r: real)
    requires k <= |areas|
  {
    if k == 0 then 0.0 else if areas[k - 1] > Largest(areas, k - 1) then areas[k - 1] else Largest(areas, k - 1)
  }

  /** The sum of the first `m` loads. */
  ghost function LoadSum(loads: seq<real>, m: nat): real
    requires m <= |loads|
  {
    if m == 0 then 0.0 else LoadSum(loads, m - 1) + loads[m - 1]
  }

  ghost function Loads(areas: seq<real>, choice: seq<int>, k: nat, m: nat): (r: seq<real>)
    requires k <= |areas| && k <= |choice|
    ensures |r| == m && forall p :: 0 <= p < m ==> r[p] == Load(areas, choice, k, p)
  {
    seq(m, p => Load(areas, choice, k, p))
  }

  ghost predicate NonNegative(areas: seq<real>) {
    forall i :: 0 <= i < |areas| ==> areas[i] >= 0.0
  }

  /** Every choice names one of the `m` parts. */
  ghost predicate Assigns(choice: seq<int>, n: nat, m: nat) {
    |choice| == n && forall i :: 0 <= i < n ==> 0 <= choice[i] < m
  }

  lemma {:induction false} SumRaised(loads: seq<real>, m: nat, p: nat, a: real)
    requires m <= |loads| && p < |loads|
    ensures LoadSum(loads[p := loads[p] + a], m) == LoadSum(loads, m) + (if p < m then a else 0.0)
  {
    if m > 0 { SumRaised(loads, m - 1, p, a); }
  }

  lemma {:induction false} ZeroSum(loads: seq<real>, m: nat)
    requires m <= |loads| && forall p :: 0 <= p < m ==> loads[p] == 0.0
    ensures LoadSum(loads, m) == 0.0
  {
    if m > 0 { ZeroSum(loads, m - 1); }
  }

  lemma NextLoads(areas: seq<real>, choice: seq<int>, k: nat, m: nat)
    requires k < |areas| && k < |choice| && 0 <= choice[k] < m
    ensures var l := Loads(areas, choice, k, m);
            Loads(areas, choice, k + 1, m) == l[choice[k] := l[choice[k]] + areas[k]]
  {
  }

  /** However the blocks are assigned, the loads add up to the total area. */
  lemma {:induction false} LoadsAddUp(areas: seq<real>, choice: seq<int>, k: nat, m: nat)
    requires Assigns(choice, |areas|, m) && k <= |areas|
    ensures LoadSum(Loads(areas, choice, k, m), m) == Total(areas, k)
  {
    var l := Loads(areas, choice, k, m);
    if k == 0 {
      ZeroSum(l, m);
    } else {
      LoadsAddUp(areas, choice, k - 1, m);
      NextLoads(areas, choice, k - 1, m);
      SumRaised(Loads(areas, choice, k - 1, m), m, choice[k - 1], areas[k - 1]);
    }
  }

  /** One block more adds its area to the part chosen for it, and to no other. */
  lemma {:induction false} LoadAdds(areas: seq<real>, choice: seq<int>, k: nat, p: int, a: real, c: int)
    requires k <= |areas| && k <= |choice|
    ensures Load([], [], 0, p) == 0.0
    ensures Load([a] + areas, [c] + choice, k + 1, p) == (if c == p then a else 0.0) + Load(areas, choice, k, p)
  {
    if k > 0 {
      LoadAdds(areas, choice, k - 1, p, a, c);
    }
  }

  /** `m` copies of `x`, added up. */
  ghost function Copies(m: nat, x: real): real {
    if m == 0 then 0.0 else Copies(m - 1, x) + x
  }

  lemma {:induction false} CopiesIsProduct(m: nat, x: real)
    ensures Copies(m, x) == m as real * x
  {
    if m > 0 {
      CopiesIsProduct(m - 1, x);
      assert m as real * x == (m - 1) as real * x + x;
    }
  }

  lemma {:induction false} CopiesOfSum(m: nat, x: real, y: real)
    ensures Copies(m, x + y) == Copies(m, x) + Copies(m, y)
  {
    if m > 0 { CopiesOfSum(m - 1, x, y); }
  }

  lemma {:induction false} CopiesGrow(m: nat, x: real, y: real)
    requires x <= y
    ensures Copies(m, x) <= Copies(m, y)
  {
    if m > 0 { CopiesGrow(m - 1, x, y); }
  }

  lemma {:induction false} SumAtMost(loads: seq<real>, m: nat, x: real)
    requires m <= |loads| && forall p :: 0 <= p < m ==> loads[p] <= x
    ensures LoadSum(loads, m) <= Copies(m, x)
  {
    if m > 0 { SumAtMost(loads, m - 1, x); }
  }

  lemma {:induction false} SumAtLeast(loads: seq<real>, m: nat, x: real)
    requires m <= |loads| && forall p :: 0 <= p < m ==> loads[p] >= x
    ensures LoadSum(loads, m) >= Copies(m, x)
  {
    if m > 0 { SumAtLeast(loads, m - 1, x); }
  }

  lemma {:induction false} LoadMonotone(areas: seq<real>, choice: seq<int>, k: nat, n: nat, p: int)
    requires NonNegative(areas) && k <= n <= |areas| && n <= |choice|
    ensures 0.0 <= Load(areas, choice, k, p) <= Load(areas, choice, n, p)
    decreases n
  {
    if k < n {
      LoadMonotone(areas, choice, k, n - 1, p);
    } else if n > 0 {
      LoadMonotone(areas, choice, n - 1, n - 1, p);
    }
  }

  lemma {:induction false} LargestIs(areas: seq<real>, k: nat)
    requires NonNegative(areas) && k <= |areas|
    ensures Largest(areas, k) >= 0.0 && forall i :: 0 <= i < k ==> areas[i] <= Largest(areas, k)
    ensures Largest(areas, k) == 0.0 || exists i :: 0 <= i < k && areas[i] == Largest(areas, k)
  {
    if k > 0 { LargestIs(areas, k - 1); }
  }

  // ---------------------------------------------------------------- the greedy rule

  /** Choice `k` is the first part with the least load so far. */
  ghost predicate LeastLoaded(areas: seq<real>, choice: seq<int>, k: nat, m: nat)
    requires k < |areas| && k < |choice|
  {
    && 0 <= choice[k] < m
    && (forall p :: 0 <= p < m ==> Load(areas, choice, k, choice[k]) <= Load(areas, choice, k, p))
    && (forall p :: 0 <= p < choice[k] ==> Load(areas, choice, k, choice[k]) < Load(areas, choice, k, p))
  }

  ghost predicate Greedy(areas: seq<real>, choice: seq<int>, k: nat, m: nat)
    requires k <= |areas| == |choice|
  {
    forall i :: 0 <= i < k ==> LeastLoaded(areas, choice, i, m)
  }

  /** No two loads differ by more than the largest block. */
  lemma {:induction false} GreedyIsBalanced(areas: seq<real>, choice: seq<int>, k: nat, m: nat, p: nat, q: nat)
    requires NonNegative(areas) && k <= |areas| == |choice| && Greedy(areas, choice, k, m) && p < m && q < m
    ensures Load(areas, choice, k, p) - Load(areas, choice, k, q) <= Largest(areas, k)
  {
    if k > 0 {
      var c := choice[k - 1];
      assert LeastLoaded(areas, choice, k - 1, m);
      GreedyIsBalanced(areas, choice, k - 1, m, p, q);
      LargestIs(areas, k);
    }
  }

  /** Each load is at most its even share of the area, plus all but that share of one largest block. */
  lemma {:induction false} GreedyShare(areas: seq<real>, choice: seq<int>, k: nat, m: nat, p: nat)
    requires NonNegative(areas) && Assigns(choice, |areas|, m) && k <= |areas|
    requires Greedy(areas, choice, k, m) && p < m
    ensures Copies(m, Load(areas, choice, k, p)) <= Total(areas, k) + Copies(m - 1, Largest(areas, k))
  {
    var l := Load(areas, choice, k, p);
    LargestIs(areas, k);
    if k == 0 {
      CopiesGrow(m - 1, 0.0, 0.0);
      CopiesIsProduct(m, 0.0);
      CopiesIsProduct(m - 1, 0.0);
    } else {
      assert LeastLoaded(areas, choice, k - 1, m);
      var before := Load(areas, choice, k - 1, p);
      if choice[k - 1] == p {
        var a := areas[k - 1];
        LoadsAddUp(areas, choice, k - 1, m);
        SumAtLeast(Loads(areas, choice, k - 1, m), m, before);
        CopiesOfSum(m, before, a);
        CopiesGrow(m - 1, a, Largest(areas, k));
      } else {
        GreedyShare(areas, choice, k - 1, m, p);
        CopiesGrow(m - 1, Largest(areas, k - 1), Largest(areas, k));
      }
    }
  }

  /** `x` is the largest of the loads of an assignment to `m` parts. */
  ghost predicate MaxLoad(areas: seq<real>, choice: seq<int>, m: nat, x: real)
    requires |choice| == |areas|
  {
    && (forall p :: 0 <= p < m ==> Load(areas, choice, |areas|, p) <= x)
    && (exists p :: 0 <= p < m && Load(areas, choice, |areas|, p) == x)
  }

  /**
   Graham's bound: the greedy assignment's largest load is at most 2 - 1/m times that of
   any assignment, so of the best one.
   */
  lemma GreedyWithinGraham(areas: seq<real>, choice: seq<int>, other: seq<int>, m: nat, x: real, y: real)
    requires NonNegative(areas) && m > 0
    requires Assigns(choice, |areas|, m) && Greedy(areas, choice, |areas|, m) && MaxLoad(areas, choice, m, x)
    requires Assigns(other, |areas|, m) && MaxLoad(areas, other, m, y)
    ensures m as real * x <= (2 * m - 1) as real * y
  {
    var n := |areas|;
    var p :| 0 <= p < m && Load(areas, choice, n, p) == x;
    GreedyShare(areas, choice, n, m, p);
    LoadsAddUp(areas, other, n, m);
    SumAtMost(Loads(areas, other, n, m), m, y);
    LargestFits(areas, other, m, y);
    CopiesGrow(m - 1, Largest(areas, n), y);
    GrahamRatio(m, x, y);
  }

  lemma GrahamRatio(m: nat, x: real, y: real)
    requires m > 0 && Copies(m, x) <= Copies(m, y) + Copies(m - 1, y)
    ensures m as real * x <= (2 * m - 1) as real * y
  {
    CopiesIsProduct(m, x);
    CopiesIsProduct(m, y);
    CopiesIsProduct(m - 1, y);
    assert (2 * m - 1) as real == m as real + (m - 1) as real;
    assert (m as real + (m - 1) as real) * y == m as real * y + (m - 1) as real * y;
  }

  /** Some part holds the largest block. */
  lemma LargestFits(areas: seq<real>, other: seq<int>, m: nat, y: real)
    requires NonNegative(areas) && Assigns(other, |areas|, m) && MaxLoad(areas, other, m, y)
    ensures Largest(areas, |areas|) <= y
  {
    var n := |areas|;
    LargestIs(areas, n);
    if Largest(areas, n) == 0.0 {
      var p :| 0 <= p < m && Load(areas, other, n, p) == y;
      LoadMonotone(areas, other, 0, n, p);
    } else {
      var i :| 0 <= i < n && areas[i] == Largest(areas, n);
      LoadMonotone(areas, other, i, i, other[i]);
      LoadMonotone(areas, other, i + 1, n, other[i]);
    }
  }

  // ---------------------------------------------------------------- the code

  function Areas(blocks: seq<Block>): (r: seq<real>)
    ensures |r| == |blocks| && forall i :: 0 <= i < |blocks| ==> r[i] == blocks[i].area
  {
    seq(|blocks|, i requires 0 <= i < |blocks| => blocks[i].area)
  }

  function Choices(blocks: seq<Block>): (r: seq<int>)
    ensures |r| == |blocks| && forall i :: 0 <= i < |blocks| ==> r[i] == blocks[i].partition
  {
    seq(|blocks|, i requires 0 <= i < |blocks| => blocks[i].partition)
  }

  /** Only the partition fields differ. */
  ghost predicate SameBlocks(a: seq<Block>, b: seq<Block>) {
    |a| == |b| && forall i :: 0 <= i < |a| ==> b[i] == a[i].(partition := b[i].partition)
  }

  class Plan {
    var blocks: seq<Block>
    const numPartitions: int

    constructor (numPartitions: int)
      ensures blocks == [] && this.numPartitions == numPartitions
    {
      blocks := [];
      this.numPartitions := numPartitions;
    }

    method AddBlock(kind: BlockType, area: real, power: real) returns (id: int)
      modifies this
      ensures |old(blocks)| >= MAX_BLOCKS ==> id == -1 && blocks == old(blocks)
      ensures |old(blocks)| < MAX_BLOCKS ==>
                id == |old(blocks)| && blocks == old(blocks) + [Block(|old(blocks)|, kind, area, power, 0)]
    {
      if |blocks| >= MAX_BLOCKS {
        return -1;
      }
      id := |blocks|;
      blocks := blocks + [Block(|blocks|, kind, area, power, 0)];
    }

    /** The first part with the least load. */
    method Lightest(partArea: array<real>) returns (best: nat)
      requires partArea.Length == numPartitions > 0
      ensures best < partArea.Length
      ensures forall p :: 0 <= p < partArea.Length ==> partArea[best] <= partArea[p]
      ensures forall p :: 0 <= p < best ==> partArea[best] < partArea[p]
    {
      best := 0;
      var minArea := partArea[0];
      var p := 1;
      while p < numPartitions
        invariant 1 <= p <= numPartitions && best < p && minArea == partArea[best]
        invariant forall q :: 0 <= q < p ==> minArea <= partArea[q]
        invariant forall q :: 0 <= q < best ==> minArea < partArea[q]
      {
        if partArea[p] < minArea {
          minArea := partArea[p];
          best := p;
        }
        p := p + 1;
      }
    }

    /** Gives block `i` to the first part with the least area, where its area is added. */
    method AssignLightest(i: nat, partArea: array<real>, ghost areas: seq<real>)
      requires i < |blocks| == |areas| && Areas(blocks) == areas && partArea.Length == numPartitions > 0
      requires forall p :: 0 <= p < numPartitions ==> partArea[p] == Load(areas, Choices(blocks), i, p)
      requires Greedy(areas, Choices(blocks), i, numPartitions)
      modifies this`blocks, partArea
      ensures SameBlocks(old(blocks), blocks) && Areas(blocks) == areas
      ensures forall p :: 0 <= p < numPartitions ==> partArea[p] == Load(areas, Choices(blocks), i + 1, p)
      ensures Greedy(areas, Choices(blocks), i + 1, numPartitions)
    {
      var best := Lightest(partArea);
      ghost var before := Choices(blocks);
      LightestLoad(partArea[..], areas, before, i, best);
      Extended(areas, before, i, best, numPartitions);
      blocks := blocks[i := blocks[i].(partition := best)];
      assert Choices(blocks) == before[i := best];
      partArea[best] := partArea[best] + blocks[i].area;
    }

    /** Assigns every block in order to the part with the least area so far. */
    method Partition() returns (ret: int)
      modifies this
      ensures SameBlocks(old(blocks), blocks)
      ensures numPartitions <= 0 ==> ret == -1 && blocks == old(blocks)
      ensures numPartitions > 0 ==>
                && ret == 0 && Assigns(Choices(blocks), |blocks|, numPartitions)
                && Greedy(Areas(blocks), Choices(blocks), |blocks|, numPartitions)
    {
      if numPartitions <= 0 {
        return -1;
      }
      ghost var areas := Areas(blocks);
      var partArea := new real[numPartitions](_ => 0.0);
      var i := 0;
      while i < |blocks|
        invariant 0 <= i <= |blocks| == |areas| && SameBlocks(old(blocks), blocks) && Areas(blocks) == areas
        invariant forall p :: 0 <= p < numPartitions ==> partArea[p] == Load(areas, Choices(blocks), i, p)
        invariant Greedy(areas, Choices(blocks), i, numPartitions)
      {
        AssignLightest(i, partArea, areas);
        i := i + 1;
      }
      GreedyAssigns(areas, Choices(blocks), |blocks|, numPartitions);
      return 0;
    }

    /** Loads recounted from the assignment; a partition number out of range counts for none. */
    method Recount() returns (partArea: array<real>)
      requires numPartitions >= 0
      requires forall k :: 0 <= k < |blocks| ==> blocks[k].partition >= 0
      ensures fresh(partArea) && partArea.Length == numPartitions
      ensures forall p :: 0 <= p < numPartitions ==> partArea[p] == Load(Areas(blocks), Choices(blocks), |blocks|, p)
    {
      partArea := new real[numPartitions](_ => 0.0);
      var i := 0;
      while i < |blocks|
        invariant 0 <= i <= |blocks|
        invariant forall p :: 0 <= p < numPartitions ==> partArea[p] == Load(Areas(blocks), Choices(blocks), i, p)
      {
        var p := blocks[i].partition;
        if p < numPartitions {
          partArea[p] := partArea[p] + blocks[i].area;
        }
        i := i + 1;
      }
    }
  }

  /** The lightest entry is the lightest load. */
  lemma {:induction false} LightestLoad(partArea: seq<real>, areas: seq<real>, choice: seq<int>, i: nat, best: nat)
    requires i <= |areas| && i <= |choice| && best < |partArea|
    requires forall p :: 0 <= p < |partArea| ==> partArea[p] == Load(areas, choice, i, p)
    requires forall p :: 0 <= p < |partArea| ==> partArea[best] <= partArea[p]
    requires forall p :: 0 <= p < best ==> partArea[best] < partArea[p]
    ensures forall p :: 0 <= p < |partArea| ==> Load(areas, choice, i, best) <= Load(areas, choice, i, p)
    ensures forall p :: 0 <= p < best ==> Load(areas, choice, i, best) < Load(areas, choice, i, p)
  {
    forall p | 0 <= p < |partArea| ensures Load(areas, choice, i, best) <= Load(areas, choice, i, p) {
      assert partArea[p] == Load(areas, choice, i, p);
    }
    forall p | 0 <= p < best ensures Load(areas, choice, i, best) < Load(areas, choice, i, p) {
      assert partArea[p] == Load(areas, choice, i, p);
    }
  }

  lemma {:induction false} GreedyAssigns(areas: seq<real>, choice: seq<int>, n: nat, m: nat)
    requires n == |areas| == |choice| && Greedy(areas, choice, n, m)
    ensures Assigns(choice, n, m)
  {
    forall k | 0 <= k < n ensures 0 <= choice[k] < m {
      assert LeastLoaded(areas, choice, k, m);
    }
  }

  /** Deciding block `i` leaves the earlier loads, and so the earlier choices, as they were. */
  lemma Extended(areas: seq<real>, before: seq<int>, i: nat, best: nat, m: nat)
    requires i < |areas| == |before| && best < m && Greedy(areas, before, i, m)
    requires forall p :: 0 <= p < m ==> Load(areas, before, i, best) <= Load(areas, before, i, p)
    requires forall p :: 0 <= p < best ==> Load(areas, before, i, best) < Load(areas, before, i, p)
    ensures Greedy(areas, before[i := best], i + 1, m)
    ensures forall p :: 0 <= p < m ==>
              Load(areas, before[i := best], i + 1, p)
              == Load(areas, before, i, p) + (if p == best then areas[i] else 0.0)
  {
    var after := before[i := best];
    forall k: nat, p: int | k <= i ensures Load(areas, after, k, p) == Load(areas, before, k, p) {
      SamePrefix(areas, before, after, k, p);
    }
    forall k | 0 <= k < i + 1 ensures LeastLoaded(areas, after, k, m) {
      if k < i { assert LeastLoaded(areas, before, k, m); }
    }
  }

  lemma {:induction false} SamePrefix(areas: seq<real>, a: seq<int>, b: seq<int>, k: nat, p: int)
    requires k <= |areas| && k <= |a| && k <= |b| && a[..k] == b[..k]
    ensures Load(areas, a, k, p) == Load(areas, b, k, p)
  {
    if k > 0 {
      assert a[..k - 1] == a[..k][..k - 1] && b[..k - 1] == b[..k][..k - 1];
      assert a[k - 1] == a[..k][k - 1] && b[k - 1] == b[..k][k - 1];
      SamePrefix(areas, a, b, k - 1, p);
    }
  }
}
