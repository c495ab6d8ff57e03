/**
 Placing blocks on the grid by annealing. Random numbers and the acceptance test are left
 open, so what is proved holds of every run. Positions are integers, costs are reals.
 */
module Placement {

  const MAX_PLACE_BLOCKS := 1024

  datatype Block = Block(clbId: int, x: int, y: int, subBlock: int, fixed: bool, io: bool)

  datatype Net = Net(source: int, sinks: seq<int>, criticality: real)

  datatype Box = Box(xmin: int, xmax: int, ymin: int, ymax: int)

  datatype Params = Params(tStart: real, tEnd: real, alpha: real, movesPerTemp: int, maxIterations: int)

  function At(b: Block): (int, int) {
    (b.x, b.y)
  }

  // ---------------------------------------------------------------- wirelength

  /** The box grown to hold the pin, when the pin is a placed block. */
  function Grow(box: Box, blocks: seq<Block>, pin: int): Box {
    if 0 <= pin < |blocks| then
      var x, y := blocks[pin].x, blocks[pin].y;
      Box(if x < box.xmin then x else box.xmin, if x > box.xmax then x else box.xmax,
          if y < box.ymin then y else box.ymin, if y > box.ymax then y else box.ymax)
    else
      box
  }

  function GrowAll(box: Box, blocks: seq<Block>, pins: seq<int>): Box {
    if pins == [] then box else Grow(GrowAll(box, blocks, pins[..|pins| - 1]), blocks, pins[|pins| - 1])
  }

  function NetBox(blocks: seq<Block>, w: int, h: int, net: Net): Box {
    GrowAll(Box(w, 0, h, 0), blocks, [net.source] + net.sinks)
  }

  function HalfPerimeter(box: Box): int {
    box.xmax - box.xmin + box.ymax - box.ymin
  }

  function Weighted(blocks: seq<Block>, w: int, h: int, nets: seq<Net>, weights: seq<real>): real
    requires |weights| == |nets|
  {
    if nets == [] then 0.0
    else
      var n := |nets| - 1;
      Weighted(blocks, w, h, nets[..n], weights[..n])
      + weights[n] * HalfPerimeter(NetBox(blocks, w, h, nets[n])) as real
  }

  function Ones(n: nat): (r: seq<real>)
    ensures |r| == n && forall i :: 0 <= i < n ==> r[i] == 1.0
  {
    seq(n, _ => 1.0)
  }

  /** The wirelength: every net weighs one. */
  function Hpwl(blocks: seq<Block>, w: int, h: int, nets: seq<Net>): real {
    Weighted(blocks, w, h, nets, Ones(|nets|))
  }

  ghost predicate InGrid(blocks: seq<Block>, w: int, h: int) {
    forall i :: 0 <= i < |blocks| ==> 0 <= blocks[i].x < w && 0 <= blocks[i].y < h
  }

  ghost predicate Placed(blocks: seq<Block>, pins: seq<int>, i: int) {
    0 <= i < |pins| && 0 <= pins[i] < |blocks|
  }

  /** Every placed pin is inside the box. */
  ghost predicate Holds(box: Box, blocks: seq<Block>, pins: seq<int>) {
    forall i {:trigger Placed(blocks, pins, i)} :: Placed(blocks, pins, i) ==>
      box.xmin <= blocks[pins[i]].x <= box.xmax && box.ymin <= blocks[pins[i]].y <= box.ymax
  }

  /** Each side of the box runs through a placed pin. */
  ghost predicate Touches(box: Box, blocks: seq<Block>, pins: seq<int>) {
    && (exists i :: Placed(blocks, pins, i) && blocks[pins[i]].x == box.xmin)
    && (exists i :: Placed(blocks, pins, i) && blocks[pins[i]].x == box.xmax)
    && (exists i :: Placed(blocks, pins, i) && blocks[pins[i]].y == box.ymin)
    && (exists i :: Placed(blocks, pins, i) && blocks[pins[i]].y == box.ymax)
  }

  /**
   Inside the grid, the box of a net is the bounding box of its placed pins; a net with no
   placed pin keeps the inverted starting box, whose half perimeter is negative.
   */
  lemma {:induction false} BoxIsTight(blocks: seq<Block>, w: int, h: int, pins: seq<int>)
    requires InGrid(blocks, w, h)
    ensures var box := GrowAll(Box(w, 0, h, 0), blocks, pins);
            if exists i :: Placed(blocks, pins, i) then Holds(box, blocks, pins) && Touches(box, blocks, pins)
            else box == Box(w, 0, h, 0)
  {
    if pins != [] {
      var n := |pins| - 1;
      var front := pins[..n];
      BoxIsTight(blocks, w, h, front);
      assert forall i :: 0 <= i < n ==> (Placed(blocks, front, i) <==> Placed(blocks, pins, i));
      assert forall i :: Placed(blocks, pins, i) && i != n ==> Placed(blocks, front, i);
      assert forall i :: Placed(blocks, front, i) ==> Placed(blocks, pins, i);
      var last := Placed(blocks, pins, n);
    }
  }

  /** `m` is the least of `start` and the placed pins' coordinates, told by `at`. */
  ghost predicate LeastSide(blocks: seq<Block>, pins: seq<int>, at: Block -> int, start: int, m: int) {
    && m <= start
    && (forall i {:trigger Placed(blocks, pins, i)} :: Placed(blocks, pins, i) ==> m <= at(blocks[pins[i]]))
    && (m == start || exists i :: Placed(blocks, pins, i) && at(blocks[pins[i]]) == m)
  }

  lemma {:induction false} LeastSideGrows(blocks: seq<Block>, pins: seq<int>, at: Block -> int, start: int, m: int,
                                          r: int)
    requires pins != [] && LeastSide(blocks, pins[..|pins| - 1], at, start, m)
    requires var p := pins[|pins| - 1]; r == if 0 <= p < |blocks| && at(blocks[p]) < m then at(blocks[p]) else m
    ensures LeastSide(blocks, pins, at, start, r)
  {
    var n := |pins| - 1;
    var front := pins[..n];
    assert forall i :: Placed(blocks, front, i) ==> Placed(blocks, pins, i) && pins[i] == front[i];
    assert forall i :: Placed(blocks, pins, i) && i != n ==> Placed(blocks, front, i);
    if r != m {
      assert Placed(blocks, pins, n);
    } else if m != start {
      var i :| Placed(blocks, front, i) && at(blocks[front[i]]) == m;
      assert Placed(blocks, pins, i);
    }
  }

  /** On any placement each side of the box is the extreme of where it starts and of the placed pins. */
  lemma {:induction false} BoxSides(blocks: seq<Block>, w: int, h: int, pins: seq<int>, box: Box)
    requires box == GrowAll(Box(w, 0, h, 0), blocks, pins)
    ensures LeastSide(blocks, pins, (b: Block) => b.x, w, box.xmin)
    ensures LeastSide(blocks, pins, (b: Block) => -b.x, 0, -box.xmax)
    ensures LeastSide(blocks, pins, (b: Block) => b.y, h, box.ymin)
    ensures LeastSide(blocks, pins, (b: Block) => -b.y, 0, -box.ymax)
  {
    if pins != [] {
      var before := GrowAll(Box(w, 0, h, 0), blocks, pins[..|pins| - 1]);
      BoxSides(blocks, w, h, pins[..|pins| - 1], before);
      LeastSideGrows(blocks, pins, (b: Block) => b.x, w, before.xmin, box.xmin);
      LeastSideGrows(blocks, pins, (b: Block) => -b.x, 0, -before.xmax, -box.xmax);
      LeastSideGrows(blocks, pins, (b: Block) => b.y, h, before.ymin, box.ymin);
      LeastSideGrows(blocks, pins, (b: Block) => -b.y, 0, -before.ymax, -box.ymax);
    }
  }

  /** On any placement a net is as long as these extremes are apart in x and in y. */
  lemma {:induction false} NetIsSpread(blocks: seq<Block>, w: int, h: int, net: Net)
    returns (xmin: int, xmax: int, ymin: int, ymax: int)
    ensures HalfPerimeter(NetBox(blocks, w, h, net)) == (xmax - xmin) + (ymax - ymin)
    ensures LeastSide(blocks, [net.source] + net.sinks, (b: Block) => b.x, w, xmin)
    ensures LeastSide(blocks, [net.source] + net.sinks, (b: Block) => -b.x, 0, -xmax)
    ensures LeastSide(blocks, [net.source] + net.sinks, (b: Block) => b.y, h, ymin)
    ensures LeastSide(blocks, [net.source] + net.sinks, (b: Block) => -b.y, 0, -ymax)
  {
    var box := NetBox(blocks, w, h, net);
    BoxSides(blocks, w, h, [net.source] + net.sinks, box);
    xmin, xmax, ymin, ymax := box.xmin, box.xmax, box.ymin, box.ymax;
  }

  /** One net more adds its length times its weight; without nets the wirelength is zero. */
  lemma {:induction false} WeightedAdds(blocks: seq<Block>, w: int, h: int, nets: seq<Net>, weights: seq<real>,
                                        net: Net, x: real)
    requires |weights| == |nets|
    ensures Weighted(blocks, w, h, [], []) == 0.0
    ensures Weighted(blocks, w, h, [net] + nets, [x] + weights)
         == x * HalfPerimeter(NetBox(blocks, w, h, net)) as real + Weighted(blocks, w, h, nets, weights)
  {
    if nets == [] {
      assert [net] + nets == [net] && [x] + weights == [x];
      assert [net][..0] == [] && [x][..0] == [];
    } else {
      var n := |nets| - 1;
      assert ([net] + nets)[..n + 1] == [net] + nets[..n] && ([x] + weights)[..n + 1] == [x] + weights[..n];
      WeightedAdds(blocks, w, h, nets[..n], weights[..n], net, x);
    }
  }

  // ---------------------------------------------------------------- swaps and their runs

  ghost predicate CanSwap(blocks: seq<Block>, a: int, b: int) {
    0 <= a < |blocks| && 0 <= b < |blocks| && a != b && !blocks[a].fixed && !blocks[b].fixed
  }

  function Swap(blocks: seq<Block>, a: int, b: int): (r: seq<Block>)
    requires 0 <= a < |blocks| && 0 <= b < |blocks|
    ensures |r| == |blocks|
  {
    var pa, pb := blocks[a], blocks[b];
    blocks[a := pa.(x := pb.x, y := pb.y)][b := pb.(x := pa.x, y := pa.y)]
  }

  /** One placement turns into the other by exchanging the positions of two movable blocks, again and again. */
  ghost predicate Legs(run: seq<seq<Block>>) {
    forall k: nat {:trigger Leg(run, k)} :: k < |run| - 1 ==> Leg(run, k)
  }

  ghost predicate Leg(run: seq<seq<Block>>, k: nat)
    requires k + 1 < |run|
  {
    exists a, b :: CanSwap(run[k], a, b) && run[k + 1] == Swap(run[k], a, b)
  }

  ghost predicate Run(run: seq<seq<Block>>, before: seq<Block>, after: seq<Block>) {
    run != [] && run[0] == before && run[|run| - 1] == after && Legs(run)
  }

  ghost predicate Reached(before: seq<Block>, after: seq<Block>) {
    exists run :: Run(run, before, after)
  }

  lemma ReachedSelf(blocks: seq<Block>)
    ensures Reached(blocks, blocks)
  {
    assert Run([blocks], blocks, blocks);
  }

  lemma ReachedSwap(before: seq<Block>, now: seq<Block>, a: int, b: int)
    requires Reached(before, now) && CanSwap(now, a, b)
    ensures Reached(before, Swap(now, a, b))
  {
    var run :| Run(run, before, now);
    var next := run + [Swap(now, a, b)];
    forall k: nat | k < |next| - 1 ensures Leg(next, k) {
      if k < |run| - 1 {
        assert Leg(run, k);
        assert next[k] == run[k] && next[k + 1] == run[k + 1];
      } else {
        assert next[k] == now && next[k + 1] == Swap(now, a, b);
      }
    }
    assert Run(next, before, Swap(now, a, b));
  }

  lemma SwapReached(before: seq<Block>, a: int, b: int, after: seq<Block>)
    requires CanSwap(before, a, b) && Reached(Swap(before, a, b), after)
    ensures Reached(before, after)
  {
    var run :| Run(run, Swap(before, a, b), after);
    var next := [before] + run;
    forall k: nat | k < |next| - 1 ensures Leg(next, k) {
      if k > 0 {
        assert Leg(run, k - 1);
        assert next[k] == run[k - 1] && next[k + 1] == run[k];
      }
    }
    assert Run(next, before, after);
  }

  // ---------------------------------------------------------------- what the draws decide

  /** Two blocks drawn, and whether chance would accept a costlier placement. */
  datatype Draw = Draw(a: nat, b: nat, lucky: bool)

  /** A swap of two movable blocks is kept when the cost does not rise, or by luck. */
  ghost function Moved(blocks: seq<Block>, w: int, h: int, nets: seq<Net>, weights: seq<real>, d: Draw): (r: seq<Block>)
    requires |weights| == |nets|
    ensures |r| == |blocks|
  {
    if CanSwap(blocks, d.a, d.b)
       && (d.lucky || Weighted(Swap(blocks, d.a, d.b), w, h, nets, weights) <= Weighted(blocks, w, h, nets, weights))
    then Swap(blocks, d.a, d.b) else blocks
  }

  ghost function AllMoved(blocks: seq<Block>, w: int, h: int, nets: seq<Net>, weights: seq<real>, draws: seq<Draw>)
    : (r: seq<Block>)
    requires |weights| == |nets|
    ensures |r| == |blocks|
  {
    if draws == [] then blocks
    else
      var n := |draws| - 1;
      Moved(AllMoved(blocks, w, h, nets, weights, draws[..n]), w, h, nets, weights, draws[n])
  }

  /** How many of the draws were of two movable blocks. Blocks do not become movable or fixed by moving. */
  ghost function Tries(blocks: seq<Block>, draws: seq<Draw>): nat {
    if draws == [] then 0
    else
      var n := |draws| - 1;
      Tries(blocks, draws[..n]) + (if CanSwap(blocks, draws[n].a, draws[n].b) then 1 else 0)
  }

  lemma {:induction false} MovesJoin(blocks: seq<Block>, w: int, h: int, nets: seq<Net>, weights: seq<real>,
                                     m: seq<Block>, d: seq<Draw>, e: seq<Draw>)
    requires |weights| == |nets| && m == AllMoved(blocks, w, h, nets, weights, d)
    ensures AllMoved(blocks, w, h, nets, weights, d + e) == AllMoved(m, w, h, nets, weights, e)
    ensures Tries(blocks, d + e) == Tries(blocks, d) + Tries(blocks, e)
    decreases |e|
  {
    if e == [] {
      assert d + e == d;
    } else {
      var n := |e| - 1;
      assert (d + e)[..|d| + n] == d + e[..n];
      MovesJoin(blocks, w, h, nets, weights, m, d, e[..n]);
    }
  }

  /** The same draws count on a placement that differs in positions only. */
  lemma {:induction false} SameTries(a: seq<Block>, b: seq<Block>, draws: seq<Draw>)
    requires |a| == |b| && forall i :: 0 <= i < |a| ==> a[i].fixed == b[i].fixed
    ensures Tries(a, draws) == Tries(b, draws)
  {
    if draws != [] {
      SameTries(a, b, draws[..|draws| - 1]);
    }
  }

  lemma {:induction false} MovesKeepFixed(blocks: seq<Block>, w: int, h: int, nets: seq<Net>, weights: seq<real>,
                                          draws: seq<Draw>, r: seq<Block>)
    requires |weights| == |nets| && r == AllMoved(blocks, w, h, nets, weights, draws)
    ensures forall i :: 0 <= i < |blocks| ==> r[i].fixed == blocks[i].fixed
    decreases |draws|
  {
    if draws != [] {
      var n := |draws| - 1;
      MovesKeepFixed(blocks, w, h, nets, weights, draws[..n], AllMoved(blocks, w, h, nets, weights, draws[..n]));
    }
  }

  lemma {:induction false} DrawsJoin(blocks: seq<Block>, w: int, h: int, nets: seq<Net>, weights: seq<real>,
                                     m: seq<Block>, d: seq<Draw>, e: seq<Draw>)
    requires |weights| == |nets| && m == AllMoved(blocks, w, h, nets, weights, d)
    ensures AllMoved(blocks, w, h, nets, weights, d + e) == AllMoved(m, w, h, nets, weights, e)
    ensures Tries(blocks, d + e) == Tries(blocks, d) + Tries(m, e)
  {
    MovesJoin(blocks, w, h, nets, weights, m, d, e);
    MovesKeepFixed(blocks, w, h, nets, weights, d, m);
    SameTries(blocks, m, e);
  }

  // ---------------------------------------------------------------- what a run can reach

  /** How many movable blocks hold the position. */
  ghost function Held(blocks: seq<Block>, at: (int, int)): nat {
    if blocks == [] then 0
    else
      var n := |blocks| - 1;
      Held(blocks[..n], at) + (if !blocks[n].fixed && At(blocks[n]) == at then 1 else 0)
  }

  ghost predicate SameHolders(before: seq<Block>, after: seq<Block>) {
    forall at :: Held(before, at) == Held(after, at)
  }

  /** Nothing but positions differs, no fixed block moved, and each position is held by as many movable blocks. */
  ghost predicate Rearranged(before: seq<Block>, after: seq<Block>) {
    && |before| == |after|
    && (forall i :: 0 <= i < |before| ==> after[i] == before[i].(x := after[i].x, y := after[i].y))
    && (forall i :: 0 <= i < |before| && before[i].fixed ==> after[i] == before[i])
    && SameHolders(before, after)
  }

  lemma {:induction false} HeldUpdated(blocks: seq<Block>, i: nat, b: Block, at: (int, int))
    requires i < |blocks| && !blocks[i].fixed && !b.fixed
    ensures Held(blocks[i := b], at) == Held(blocks, at)
              - (if At(blocks[i]) == at then 1 else 0) + (if At(b) == at then 1 else 0)
  {
    var n := |blocks| - 1;
    if i < n {
      HeldUpdated(blocks[..n], i, b, at);
      assert blocks[i := b][..n] == blocks[..n][i := b];
    } else {
      assert blocks[i := b][..n] == blocks[..n];
    }
  }

  lemma {:induction false} HeldByOwner(blocks: seq<Block>, i: nat)
    requires i < |blocks| && !blocks[i].fixed
    ensures Held(blocks, At(blocks[i])) > 0
  {
    var n := |blocks| - 1;
    if i < n { HeldByOwner(blocks[..n], i); }
  }

  lemma {:induction false} OwnerOfHeld(blocks: seq<Block>, at: (int, int)) returns (i: nat)
    requires Held(blocks, at) > 0
    ensures i < |blocks| && !blocks[i].fixed && At(blocks[i]) == at
    decreases |blocks|
  {
    var n := |blocks| - 1;
    if !blocks[n].fixed && At(blocks[n]) == at {
      i := n;
    } else {
      i := OwnerOfHeld(blocks[..n], at);
    }
  }

  lemma {:induction false} HeldSplit(blocks: seq<Block>, n: nat, at: (int, int))
    requires n <= |blocks|
    ensures Held(blocks, at) == Held(blocks[..n], at) + Held(blocks[n..], at)
    decreases |blocks|
  {
    var k := |blocks| - 1;
    if n == |blocks| {
      assert blocks[..n] == blocks;
    } else {
      HeldSplit(blocks[..k], n, at);
      assert blocks[..k][..n] == blocks[..n] && blocks[..k][n..] == blocks[n..][..k - n];
    }
  }

  lemma SwapRearranges(blocks: seq<Block>, a: int, b: int)
    requires CanSwap(blocks, a, b)
    ensures Rearranged(blocks, Swap(blocks, a, b))
  {
    var pa, pb := blocks[a], blocks[b];
    var atB, atA := pa.(x := pb.x, y := pb.y), pb.(x := pa.x, y := pa.y);
    forall at ensures Held(blocks, at) == Held(Swap(blocks, a, b), at) {
      HeldUpdated(blocks, a, atB, at);
      HeldUpdated(blocks[a := atB], b, atA, at);
    }
  }

  lemma {:induction false} LegsRearrange(run: seq<seq<Block>>, k: nat)
    requires k < |run| && Legs(run)
    ensures Rearranged(run[0], run[k])
  {
    if k > 0 {
      LegsRearrange(run, k - 1);
      assert Leg(run, k - 1);
      var a, b :| CanSwap(run[k - 1], a, b) && run[k] == Swap(run[k - 1], a, b);
      SwapRearranges(run[k - 1], a, b);
    }
  }

  /** The first `n` blocks are put in place from the last one down. */
  lemma {:induction false} RearrangedReached(before: seq<Block>, after: seq<Block>, n: nat)
    requires Rearranged(before, after) && n <= |before| && before[n..] == after[n..]
    ensures Reached(before, after)
    decreases n
  {
    if n == 0 {
      assert before == before[0..] == after[0..] == after;
      ReachedSelf(before);
    } else if before[n - 1] == after[n - 1] {
      forall i | n - 1 <= i < |before| ensures before[i] == after[i] {
        if i >= n { assert before[i] == before[n..][i - n] && after[i] == after[n..][i - n]; }
      }
      assert before[n - 1..] == after[n - 1..];
      RearrangedReached(before, after, n - 1);
    } else {
      var j := OwnerBelow(before, after, n);
      SwapRearranges(before, j, n - 1);
      var next := Swap(before, j, n - 1);
      forall i | n - 1 <= i < |before| ensures next[i] == after[i] {
        if i >= n { assert before[i] == before[n..][i - n] && after[i] == after[n..][i - n]; }
      }
      assert next[n - 1..] == after[n - 1..];
      RearrangedReached(next, after, n - 1);
      SwapReached(before, j, n - 1, after);
    }
  }

  /** The position block `n - 1` is to get is held by a movable block before it. */
  lemma OwnerBelow(before: seq<Block>, after: seq<Block>, n: nat) returns (j: nat)
    requires Rearranged(before, after) && 0 < n <= |before| && before[n..] == after[n..]
    requires before[n - 1] != after[n - 1]
    ensures j < n - 1 && CanSwap(before, j, n - 1) && At(before[j]) == At(after[n - 1])
  {
    var at := At(after[n - 1]);
    HeldSplit(before, n, at);
    HeldSplit(after, n, at);
    assert after[n - 1] == before[n - 1].(x := after[n - 1].x, y := after[n - 1].y);
    HeldByOwner(after[..n], n - 1);
    j := OwnerOfHeld(before[..n], at);
    assert before[..n][j] == before[j];
  }

  /** A run reaches exactly the placements that rearrange the movable blocks among their own positions. */
  lemma ReachedIffRearranged(before: seq<Block>, after: seq<Block>)
    ensures Reached(before, after) <==> Rearranged(before, after)
  {
    if Rearranged(before, after) {
      assert before[|before|..] == after[|before|..];
      RearrangedReached(before, after, |before|);
    }
    if Reached(before, after) {
      var run :| Run(run, before, after);
      LegsRearrange(run, |run| - 1);
    }
  }

  /** No run leaves the grid. */
  lemma RunsStayInGrid(before: seq<Block>, after: seq<Block>, w: int, h: int)
    requires InGrid(before, w, h) && Reached(before, after)
    ensures InGrid(after, w, h)
  {
    ReachedIffRearranged(before, after);
    forall i | 0 <= i < |after| ensures 0 <= after[i].x < w && 0 <= after[i].y < h {
      if !after[i].fixed {
        HeldByOwner(after, i);
        var j := OwnerOfHeld(before, At(after[i]));
      }
    }
  }

  // ---------------------------------------------------------------- legality

  /** Two blocks collide when position and sub-block agree. */
  predicate Collide(a: Block, b: Block) {
    a.x == b.x && a.y == b.y && a.subBlock == b.subBlock
  }

  predicate Legal(blocks: seq<Block>) {
    forall i, j :: 0 <= i < j < |blocks| ==> !Collide(blocks[i], blocks[j])
  }

  /** Blocks `i` and `j` share a sub-block number but can never be brought to one position. */
  ghost predicate Apart(blocks: seq<Block>, i: nat, j: nat)
    requires i < |blocks| && j < |blocks|
  {
    if blocks[i].fixed && blocks[j].fixed then At(blocks[i]) != At(blocks[j])
    else if blocks[i].fixed then Unused(blocks, At(blocks[i]))
    else if blocks[j].fixed then Unused(blocks, At(blocks[j]))
    else Spread(blocks)
  }

  /** No movable block is at the position. */
  ghost predicate Unused(blocks: seq<Block>, at: (int, int)) {
    forall k :: 0 <= k < |blocks| && !blocks[k].fixed ==> At(blocks[k]) != at
  }

  /** The movable blocks are at different positions. */
  ghost predicate Spread(blocks: seq<Block>) {
    forall k, l :: 0 <= k < l < |blocks| && !blocks[k].fixed && !blocks[l].fixed ==> At(blocks[k]) != At(blocks[l])
  }

  ghost predicate SwapProof(blocks: seq<Block>) {
    forall i: nat, j: nat :: i < j < |blocks| && blocks[i].subBlock == blocks[j].subBlock ==> Apart(blocks, i, j)
  }

  ghost predicate AlwaysLegal(blocks: seq<Block>) {
    forall after :: Reached(blocks, after) ==> Legal(after)
  }

  lemma {:induction false} SwapProofIsLegal(blocks: seq<Block>)
    requires SwapProof(blocks)
    ensures Legal(blocks)
  {
    forall i: nat, j: nat | i < j < |blocks| ensures !Collide(blocks[i], blocks[j]) {
      if blocks[i].subBlock == blocks[j].subBlock {
        assert Apart(blocks, i, j);
        assert At(blocks[i]) != At(blocks[j]);
      }
    }
  }

  lemma SwapKeepsProof(blocks: seq<Block>, a: int, b: int)
    requires CanSwap(blocks, a, b) && SwapProof(blocks)
    ensures SwapProof(Swap(blocks, a, b))
  {
    var next := Swap(blocks, a, b);
    forall i: nat, j: nat | i < j < |next| && next[i].subBlock == next[j].subBlock ensures Apart(next, i, j) {
      assert Apart(blocks, i, j);
      if blocks[i].fixed && !blocks[j].fixed { SwapKeepsUnused(blocks, a, b, At(blocks[i])); }
      if blocks[j].fixed && !blocks[i].fixed { SwapKeepsUnused(blocks, a, b, At(blocks[j])); }
      if !blocks[i].fixed && !blocks[j].fixed { SwapKeepsSpread(blocks, a, b); }
    }
  }

  lemma SwapKeepsUnused(blocks: seq<Block>, a: int, b: int, at: (int, int))
    requires CanSwap(blocks, a, b) && Unused(blocks, at)
    ensures Unused(Swap(blocks, a, b), at)
  {
  }

  lemma {:induction false} SwapKeepsSpread(blocks: seq<Block>, a: int, b: int)
    requires CanSwap(blocks, a, b) && Spread(blocks)
    ensures Spread(Swap(blocks, a, b))
  {
    var next := Swap(blocks, a, b);
    forall k, l | 0 <= k < l < |next| && !next[k].fixed && !next[l].fixed ensures At(next[k]) != At(next[l]) {
      var k0 := if k == a then b else if k == b then a else k;
      var l0 := if l == a then b else if l == b then a else l;
      assert At(next[k]) == At(blocks[k0]) && At(next[l]) == At(blocks[l0]);
      assert k0 < l0 || l0 < k0;
    }
  }

  lemma {:induction false} LegsKeepProof(run: seq<seq<Block>>, k: nat)
    requires k < |run| && Legs(run) && SwapProof(run[0])
    ensures SwapProof(run[k])
  {
    if k > 0 {
      LegsKeepProof(run, k - 1);
      assert Leg(run, k - 1);
      var a, b :| CanSwap(run[k - 1], a, b) && run[k] == Swap(run[k - 1], a, b);
      SwapKeepsProof(run[k - 1], a, b);
    }
  }

  /** A run that brings movable block `k`'s position to movable block `i`. */
  lemma Bring(before: seq<Block>, now: seq<Block>, i: nat, k: nat) returns (next: seq<Block>)
    requires Reached(before, now) && i < |now| && k < |now| && !now[i].fixed && !now[k].fixed
    ensures Reached(before, next)
    ensures next == if i == k then now else Swap(now, i, k)
  {
    if i == k {
      next := now;
    } else {
      next := Swap(now, i, k);
      ReachedSwap(before, now, i, k);
    }
  }

  lemma {:induction false} FixedStandsApart(blocks: seq<Block>, still: nat, mover: nat, k: nat)
    requires AlwaysLegal(blocks) && still < |blocks| && mover < |blocks| && k < |blocks|
    requires blocks[still].fixed && !blocks[mover].fixed && !blocks[k].fixed
    requires blocks[still].subBlock == blocks[mover].subBlock
    ensures At(blocks[k]) != At(blocks[still])
  {
    ReachedSelf(blocks);
    var next := Bring(blocks, blocks, mover, k);
    var i, j := if still < mover then still else mover, if still < mover then mover else still;
    assert !Collide(next[i], next[j]);
  }

  lemma {:induction false} MoversStandApart(blocks: seq<Block>, i: nat, j: nat, k: nat, l: nat)
    requires AlwaysLegal(blocks) && i < j < |blocks| && k < l < |blocks| && blocks[i].subBlock == blocks[j].subBlock
    requires !blocks[i].fixed && !blocks[j].fixed && !blocks[k].fixed && !blocks[l].fixed
    ensures At(blocks[k]) != At(blocks[l])
  {
    ReachedSelf(blocks);
    var once := Bring(blocks, blocks, i, k);
    var next := Bring(blocks, once, j, if l == i then k else l);
    assert !Collide(next[i], next[j]);
  }

  lemma {:induction false} LegalRunsKeepApart(blocks: seq<Block>, i: nat, j: nat)
    requires AlwaysLegal(blocks) && i < j < |blocks| && blocks[i].subBlock == blocks[j].subBlock
    ensures Apart(blocks, i, j)
  {
    if blocks[i].fixed && blocks[j].fixed {
      ReachedSelf(blocks);
      assert !Collide(blocks[i], blocks[j]);
    } else if !blocks[i].fixed && !blocks[j].fixed {
      forall k: nat, l: nat | k < l < |blocks| && !blocks[k].fixed && !blocks[l].fixed
        ensures At(blocks[k]) != At(blocks[l])
      {
        MoversStandApart(blocks, i, j, k, l);
      }
    } else {
      var still, mover := if blocks[i].fixed then i else j, if blocks[i].fixed then j else i;
      forall k: nat | k < |blocks| && !blocks[k].fixed ensures At(blocks[k]) != At(blocks[still]) {
        FixedStandsApart(blocks, still, mover, k);
      }
    }
  }

  /**
   The exact condition for annealing to keep a placement legal in every run. Since a swap
   moves positions but not sub-block numbers, a legal start is not enough.
   */
  lemma AlwaysLegalIff(blocks: seq<Block>)
    ensures AlwaysLegal(blocks) <==> SwapProof(blocks)
  {
    if AlwaysLegal(blocks) {
      forall i: nat, j: nat | i < j < |blocks| && blocks[i].subBlock == blocks[j].subBlock ensures Apart(blocks, i, j) {
        LegalRunsKeepApart(blocks, i, j);
      }
    }
    if SwapProof(blocks) {
      forall after | Reached(blocks, after) ensures Legal(after) {
        var run :| Run(run, blocks, after);
        LegsKeepProof(run, |run| - 1);
        SwapProofIsLegal(after);
      }
    }
  }

  /** Legal at the start, in collision after one swap: two sub-block numbers crossed. */
  lemma LegalStartMayTurnIllegal()
    ensures var start := [Block(0, 0, 0, 0, false, false), Block(1, 0, 0, 1, false, false),
                          Block(2, 1, 0, 1, false, false)];
            Legal(start) && CanSwap(start, 0, 2) && !Legal(Swap(start, 0, 2)) && !AlwaysLegal(start)
  {
    var start := [Block(0, 0, 0, 0, false, false), Block(1, 0, 0, 1, false, false), Block(2, 1, 0, 1, false, false)];
    var next := Swap(start, 0, 2);
    assert Collide(next[1], next[2]);
    ReachedSelf(start);
    ReachedSwap(start, start, 0, 2);
  }

  // ---------------------------------------------------------------- cooling

  function Power(a: real, k: nat): real {
    if k == 0 then 1.0 else Power(a, k - 1) * a
  }

  /** Repeated scaling brings the temperature down to the final one. */
  ghost predicate Cools(tStart: real, tEnd: real, alpha: real) {
    exists k: nat :: Temperature(tStart, alpha, k) <= tEnd
  }

  /** The temperature after `k` coolings. */
  function Temperature(tStart: real, alpha: real, k: nat): real {
    if k == 0 then tStart else Temperature(tStart, alpha, k - 1) * alpha
  }

  lemma {:induction false} TemperatureIsScaled(tStart: real, alpha: real, k: nat)
    ensures Temperature(tStart, alpha, k) == tStart * Power(alpha, k)
  {
    if k > 0 {
      TemperatureIsScaled(tStart, alpha, k - 1);
      var p := Power(alpha, k - 1);
      assert tStart * p * alpha == tStart * (p * alpha);
    }
  }

  /** The first `k` temperatures are above the final one. */
  ghost predicate StaysHot(tStart: real, tEnd: real, alpha: real, k: nat) {
    forall j: nat :: j < k ==> Temperature(tStart, alpha, j) > tEnd
  }

  function Ramp(a: real, k: nat): real {
    if k == 0 then 1.0 else Ramp(a, k - 1) + (1.0 - a)
  }

  lemma {:induction false} RampIsLinear(a: real, k: nat)
    ensures Ramp(a, k) == 1.0 + k as real * (1.0 - a)
  {
    if k > 0 {
      RampIsLinear(a, k - 1);
      assert k as real * (1.0 - a) == (k - 1) as real * (1.0 - a) + (1.0 - a);
    }
  }

  /** Bernoulli's inequality, for the number of steps a factor below 1 needs. */
  lemma {:induction false} PowerBound(a: real, k: nat)
    requires 0.0 < a < 1.0
    ensures 0.0 < Power(a, k) && Ramp(a, k) >= 1.0 && Power(a, k) * Ramp(a, k) <= 1.0
  {
    if k > 0 {
      PowerBound(a, k - 1);
      PowerBoundStep(a, Power(a, k - 1), Ramp(a, k - 1));
    }
  }

  lemma {:induction false} Rest(a: real, y: real)
    requires a <= 1.0 && y >= 0.0
    ensures y - a * y >= 0.0
  {
    assert (1.0 - a) * y >= 0.0;
  }

  lemma PowerBoundStep(a: real, p: real, c: real)
    requires 0.0 < a < 1.0 && p > 0.0 && p * c <= 1.0 && c >= 1.0
    ensures p * a > 0.0 && p * a * (c + (1.0 - a)) <= 1.0
  {
    var x := a * (c + (1.0 - a));
    assert x == a * c + (a - a * a);
    Rest(a, c - a);
    assert a * (c - a) == a * c - a * a;
    assert p * a * (c + (1.0 - a)) == p * x;
    assert p * x <= p * c;
  }

  lemma {:induction false} PowerStaysUp(a: real, k: nat)
    requires a >= 1.0
    ensures Power(a, k) >= 1.0
  {
    if k > 0 { PowerStaysUp(a, k - 1); }
  }

  lemma {:induction false} PowerIsPositive(a: real, k: nat)
    requires a > 0.0
    ensures Power(a, k) > 0.0
  {
    if k > 0 { PowerIsPositive(a, k - 1); }
  }

  lemma CoolsDown(tStart: real, tEnd: real, alpha: real)
    requires tStart > 0.0 && 0.0 < alpha < 1.0 && tEnd > 0.0
    ensures Cools(tStart, tEnd, alpha)
  {
    var d := 1.0 - alpha;
    var need := tStart / tEnd / d;
    assert need >= 0.0;
    var k: nat := need.Floor + 1;
    PowerBound(alpha, k);
    RampIsLinear(alpha, k);
    assert k as real * d >= need * d;
    assert need * d * tEnd == tStart;
    CoolEnough(tStart, tEnd, Power(alpha, k), Ramp(alpha, k), need * d);
    TemperatureIsScaled(tStart, alpha, k);
  }

  lemma {:induction false} CoolEnough(t: real, e: real, p: real, ramp: real, need: real)
    requires e > 0.0 && p > 0.0 && ramp >= need && need * e == t && p * ramp <= 1.0
    ensures t * p <= e
  {
    var q := p * need;
    assert q <= p * ramp;
    assert (1.0 - q) * e >= 0.0;
    assert (1.0 - q) * e == e - q * e;
    assert t * p == q * e;
  }

  lemma NotNegative(x: real, y: real)
    requires x >= 0.0 && y >= 0.0
    ensures x * y >= 0.0
  {
  }

  lemma AtLeast(x: real, y: real, f: real)
    requires x >= y && f >= 0.0
    ensures x * f >= y * f
  {
    NotNegative(x - y, f);
    assert (x - y) * f == x * f - y * f;
  }

  /** A factor above 1 takes a negative temperature below any other. */
  lemma {:induction false} PowerGrows(b: real, k: nat)
    requires b > 1.0
    ensures Power(b, k) >= 1.0 + k as real * (b - 1.0)
  {
    if k > 0 {
      PowerGrows(b, k - 1);
      PowerStaysUp(b, k - 1);
      var p, d := Power(b, k - 1), b - 1.0;
      AtLeast(p, 1.0, d);
      assert Power(b, k) == p * b == p + p * d;
      assert k as real * d == (k - 1) as real * d + d;
    } else {
      assert 0.0 * (b - 1.0) == 0.0;
    }
  }

  lemma {:induction false} Plunges(t: real, e: real, b: real) returns (k: nat)
    requires t < 0.0 && b > 1.0
    ensures t * Power(b, k) <= e
  {
    if t <= e {
      k := 0;
    } else {
      var need := e / t;
      var steps := need / (b - 1.0);
      assert need * t == e && steps * (b - 1.0) == need;
      k := if steps < 0.0 then 0 else steps.Floor + 1;
      PowerGrows(b, k);
      AtLeast(k as real, steps, b - 1.0);
      AtLeast(Power(b, k), need, -t);
    }
  }

  /** Two coolings scale by the square of the rate. */
  lemma {:induction false} TwiceScaled(t: real, a: real, k: nat)
    ensures Temperature(t, a, 2 * k) == t * Power(a * a, k)
  {
    if k > 0 {
      TwiceScaled(t, a, k - 1);
      var p := Power(a * a, k - 1);
      assert Temperature(t, a, 2 * k) == Temperature(t, a, 2 * k - 1) * a;
      assert Temperature(t, a, 2 * k - 1) == Temperature(t, a, 2 * (k - 1)) * a;
      assert t * p * a * a == t * (p * (a * a));
    }
  }

  /** With a rate above 1 or below -1 the temperature falls below any other on its negative side. */
  lemma {:induction false} CoolsFar(tStart: real, tEnd: real, alpha: real)
    requires (tStart < 0.0 && alpha > 1.0) || (tStart != 0.0 && alpha < -1.0)
    ensures Cools(tStart, tEnd, alpha)
  {
    if alpha > 1.0 {
      var k := Plunges(tStart, tEnd, alpha);
      TemperatureIsScaled(tStart, alpha, k);
    } else {
      var square := alpha * alpha;
      assert square > 1.0 by { assert (-alpha - 1.0) * (-alpha + 1.0) > 0.0; }
      if tStart < 0.0 {
        var k := Plunges(tStart, tEnd, square);
        TwiceScaled(tStart, alpha, k);
        assert Temperature(tStart, alpha, 2 * k) <= tEnd;
      } else {
        var k := Plunges(tStart * alpha, tEnd, square);
        TwiceScaled(tStart, alpha, k);
        assert tStart * Power(square, k) * alpha == tStart * alpha * Power(square, k);
        assert Temperature(tStart, alpha, 2 * k + 1) <= tEnd;
      }
    }
  }

  lemma AtMost(s: real, f: real, bound: real)
    requires 0.0 <= f <= 1.0 && s <= bound && bound >= 0.0
    ensures s * f <= bound
  {
    NotNegative(bound - s, f);
    NotNegative(bound, 1.0 - f);
    assert bound - s * f == (bound - s) * f + bound * (1.0 - f);
  }

  lemma Shrinks(s: real, a: real, bound: real)
    requires -1.0 <= a <= 1.0 && -bound <= s <= bound
    ensures -bound <= s * a <= bound
  {
    if a >= 0.0 {
      AtMost(s, a, bound);
      AtMost(-s, a, bound);
      assert s * a + -s * a == 0.0;
    } else {
      AtMost(s, -a, bound);
      AtMost(-s, -a, bound);
      assert s * -a + s * a == 0.0 && -s * -a == s * a;
    }
  }

  /** With a rate between -1 and 1 a negative start is the lowest temperature. */
  lemma {:induction false} StaysAbove(t: real, a: real, k: nat)
    requires -1.0 <= a <= 1.0 && t < 0.0
    ensures t <= Temperature(t, a, k) <= -t
  {
    if k > 0 {
      StaysAbove(t, a, k - 1);
      Shrinks(Temperature(t, a, k - 1), a, -t);
    }
  }

  /** With a rate between -1 and 0 the first cooling reaches the lowest temperature. */
  lemma {:induction false} StaysBetween(t: real, a: real, low: real, k: nat)
    requires -1.0 <= a <= 0.0 && t >= 0.0 && low == t * a
    ensures low <= Temperature(t, a, k) <= t
  {
    Shrinks(t, a, t);
    if k > 0 {
      StaysBetween(t, a, low, k - 1);
      Exchanges(Temperature(t, a, k - 1), a, t, low);
    } else {
      NotNegative(t, -a);
      assert t * -a == -low;
    }
  }

  lemma Exchanges(s: real, a: real, t: real, low: real)
    requires -1.0 <= a <= 0.0 && low == t * a && -t <= low <= s <= t
    ensures low <= s * a <= t
  {
    Shrinks(s, a, t);
    NotNegative(t - s, -a);
    assert s * a - low == (t - s) * -a;
  }

  /** How a schedule can come to its final temperature, from what a caller gives. */
  predicate Ends(tStart: real, tEnd: real, alpha: real) {
    || tStart <= tEnd
    || (tStart > 0.0 && 0.0 < alpha < 1.0 && tEnd > 0.0)
    || (tStart > 0.0 && alpha <= 0.0 && tStart * alpha <= tEnd)
    || (tStart < 0.0 && alpha > 1.0)
    || (tStart != 0.0 && alpha < -1.0)
  }

  lemma {:induction false} EndsCools(tStart: real, tEnd: real, alpha: real)
    requires Ends(tStart, tEnd, alpha)
    ensures Cools(tStart, tEnd, alpha)
  {
    if tStart <= tEnd {
      assert Temperature(tStart, alpha, 0) <= tEnd;
    } else if tStart > 0.0 && 0.0 < alpha < 1.0 && tEnd > 0.0 {
      CoolsDown(tStart, tEnd, alpha);
    } else if tStart > 0.0 && alpha <= 0.0 && tStart * alpha <= tEnd {
      assert Temperature(tStart, alpha, 1) == Temperature(tStart, alpha, 0) * alpha;
    } else {
      CoolsFar(tStart, tEnd, alpha);
    }
  }

  lemma {:induction false} NeverCools(tStart: real, tEnd: real, alpha: real, k: nat)
    requires !Ends(tStart, tEnd, alpha)
    ensures Temperature(tStart, alpha, k) > tEnd
  {
    if tStart > 0.0 && alpha > 0.0 {
      TemperatureIsScaled(tStart, alpha, k);
      PowerIsPositive(alpha, k);
      if alpha >= 1.0 {
        PowerStaysUp(alpha, k);
        AtLeast(Power(alpha, k), 1.0, tStart);
      } else {
        assert tStart * Power(alpha, k) > 0.0;
      }
    } else if tStart == 0.0 {
      TemperatureIsScaled(tStart, alpha, k);
    } else if tStart < 0.0 {
      StaysAbove(tStart, alpha, k);
    } else {
      StaysBetween(tStart, alpha, tStart * alpha, k);
    }
  }

  /**
   Whatever the start, the rate and the final temperature, the schedule comes to an end exactly when it starts at or
   below the final temperature; or starts above 0 with a rate between 0 and 1 and a final temperature above 0, or
   with a rate of at most 0 that takes it there in one step; or the rate drives it below everything.
   */
  lemma CoolsIff(tStart: real, tEnd: real, alpha: real)
    ensures Cools(tStart, tEnd, alpha) <==> Ends(tStart, tEnd, alpha)
  {
    if Ends(tStart, tEnd, alpha) {
      EndsCools(tStart, tEnd, alpha);
    } else {
      forall k: nat ensures Temperature(tStart, alpha, k) > tEnd {
        NeverCools(tStart, tEnd, alpha, k);
      }
    }
  }

  // ---------------------------------------------------------------- the code

  /** Block `i` where it is first put: row by row across the grid. */
  function Seat(i: nat, w: int): (int, int)
    requires w != 0
  {
    (i % w, i / w)
  }

  /** Rows are filled one after the other. */
  lemma {:induction false} SeatsRowByRow(i: nat, w: int)
    requires w > 0
    ensures Seat(0, w) == (0, 0)
    ensures var (x, y) := Seat(i, w); Seat(i + 1, w) == if x + 1 < w then (x + 1, y) else (0, y + 1)
  {
    var x, y := i % w, i / w;
    assert i == y * w + x;
    if x + 1 < w {
      RowOf(i + 1, w, x + 1, y);
    } else {
      RowOf(i + 1, w, 0, y + 1);
    }
  }

  lemma {:induction false} RowOf(i: nat, w: int, x: int, y: int)
    requires w > 0 && i == y * w + x && 0 <= x < w
    ensures i % w == x && i / w == y
  {
    var q := i / w;
    var r := i % w;
    assert i == q * w + r;
    assert (q - y) * w == q * w - y * w;
    NoMultiple(q - y, w);
  }

  lemma AtLeastOnce(d: int, w: int)
    requires d >= 1 && w >= 1
    ensures d * w >= w
  {
  }

  lemma NoMultiple(d: int, w: int)
    requires w > 0
    ensures -w < d * w < w ==> d == 0
  {
    if d > 0 {
      AtLeastOnce(d, w);
    } else if d < 0 {
      AtLeastOnce(-d, w);
      assert -d * w == -(d * w);
    }
  }

  /** As many blocks as the grid has places start inside it, no two at one position; one more starts outside. */
  lemma SeatsFit(blocks: seq<Block>, w: int, h: int)
    requires w > 0 && forall i :: 0 <= i < |blocks| ==> At(blocks[i]) == Seat(i, w)
    ensures forall i, j :: 0 <= i < j < |blocks| ==> At(blocks[i]) != At(blocks[j])
    ensures InGrid(blocks, w, h) <==> |blocks| == 0 || |blocks| <= w * h
  {
    forall i, j | 0 <= i < j < |blocks| ensures At(blocks[i]) != At(blocks[j]) {
      assert i == i / w * w + i % w && j == j / w * w + j % w;
    }
    forall i: nat | i < |blocks| ensures 0 <= i % w < w && 0 <= i / w && (i / w < h <==> i < w * h) {
      RowBelow(i, w, h);
    }
    if |blocks| > 0 && InGrid(blocks, w, h) {
      var last := |blocks| - 1;
      assert At(blocks[last]) == Seat(last, w) && blocks[last].y < h;
    }
  }

  /** A board filled by adding at most as many blocks as it has places is legal and inside the grid after every run. */
  lemma BuiltBoardStaysLegal(blocks: seq<Block>, w: int, h: int, after: seq<Block>)
    requires w > 0 && |blocks| <= w * h && forall i :: 0 <= i < |blocks| ==> At(blocks[i]) == Seat(i, w)
    requires Reached(blocks, after)
    ensures Legal(after) && InGrid(after, w, h)
  {
    SeatsFit(blocks, w, h);
    RunsStayInGrid(blocks, after, w, h);
    AlwaysLegalIff(blocks);
  }

  lemma RowBelow(i: nat, w: int, h: int)
    requires w > 0
    ensures 0 <= i / w && (i / w < h <==> i < w * h)
  {
    var q, r := i / w, i % w;
    assert i == q * w + r;
    if q < h {
      assert (q + 1) * w <= h * w;
    } else {
      assert q * w >= h * w;
    }
  }

  function Weights(nets: seq<Net>, timed: bool, lift: real -> real): (r: seq<real>)
    ensures |r| == |nets|
    ensures forall i :: 0 <= i < |r| ==>
              r[i] == if timed && nets[i].criticality > 0.0 then lift(nets[i].criticality) else 1.0
  {
    seq(|nets|, i requires 0 <= i < |nets| =>
      if timed && nets[i].criticality > 0.0 then lift(nets[i].criticality) else 1.0)
  }

  class Placement {
    var blocks: seq<Block>
    const gridW: int
    const gridH: int
    var wirelength: real
    var cost: real

    constructor (gridW: int, gridH: int)
      ensures this.gridW == gridW && this.gridH == gridH
      ensures blocks == [] && wirelength == 0.0 && cost == 0.0
    {
      this.gridW, this.gridH := gridW, gridH;
      blocks, wirelength, cost := [], 0.0, 0.0;
    }

    method AddBlock(clbId: int) returns (idx: int)
      requires gridW != 0
      modifies this`blocks
      ensures |old(blocks)| >= MAX_PLACE_BLOCKS ==> idx == -1 && blocks == old(blocks)
      ensures |old(blocks)| < MAX_PLACE_BLOCKS ==>
                && idx == |old(blocks)| && |blocks| == idx + 1 && blocks[..idx] == old(blocks)
                && At(blocks[idx]) == Seat(idx, gridW) && blocks[idx].clbId == clbId
                && blocks[idx].subBlock == 0 && !blocks[idx].fixed && !blocks[idx].io
    {
      if |blocks| >= MAX_PLACE_BLOCKS {
        return -1;
      }
      idx := |blocks|;
      blocks := blocks + [Block(clbId, idx % gridW, idx / gridW, 0, false, false)];
    }

    method FixBlock(i: int, x: int, y: int)
      requires 0 <= i < |blocks|
      modifies this`blocks
      ensures blocks == old(blocks)[i := old(blocks)[i].(x := x, y := y, fixed := true)]
    {
      blocks := blocks[i := blocks[i].(x := x, y := y, fixed := true)];
    }

    method BoundingBox(net: Net) returns (box: Box)
      ensures box == NetBox(blocks, gridW, gridH, net)
    {
      ghost var pins := [net.source] + net.sinks;
      box := Box(gridW, 0, gridH, 0);
      assert pins[..1][..0] == [];
      box := Grow(box, blocks, net.source);
      var i := 0;
      while i < |net.sinks|
        invariant 0 <= i <= |net.sinks|
        invariant box == GrowAll(Box(gridW, 0, gridH, 0), blocks, pins[..i + 1])
      {
        assert pins[..i + 2][..i + 1] == pins[..i + 1];
        box := Grow(box, blocks, net.sinks[i]);
        i := i + 1;
      }
      assert pins[..i + 1] == pins;
    }

    method TotalWirelength(nets: seq<Net>) returns (total: real)
      ensures total == Hpwl(blocks, gridW, gridH, nets)
    {
      total := 0.0;
      var i := 0;
      while i < |nets|
        invariant 0 <= i <= |nets| && total == Hpwl(blocks, gridW, gridH, nets[..i])
      {
        var box := BoundingBox(nets[i]);
        HpwlNext(blocks, gridW, gridH, nets, i);
        total := total + HalfPerimeter(box) as real;
        i := i + 1;
      }
      assert nets[..i] == nets;
    }

    method WeightedWirelength(nets: seq<Net>, weights: seq<real>) returns (total: real)
      requires |weights| == |nets|
      ensures total == Weighted(blocks, gridW, gridH, nets, weights)
    {
      total := 0.0;
      var i := 0;
      while i < |nets|
        invariant 0 <= i <= |nets| && total == Weighted(blocks, gridW, gridH, nets[..i], weights[..i])
      {
        var box := BoundingBox(nets[i]);
        assert nets[..i + 1][..i] == nets[..i] && weights[..i + 1][..i] == weights[..i];
        total := total + weights[i] * HalfPerimeter(box) as real;
        i := i + 1;
      }
      assert nets[..i] == nets && weights[..i] == weights;
    }

    /** Exchanges the positions of two blocks. */
    method Exchange(a: nat, b: nat)
      requires a < |blocks| && b < |blocks|
      modifies this`blocks
      ensures blocks == Swap(old(blocks), a, b)
    {
      var xa, ya := blocks[a].x, blocks[a].y;
      var xb, yb := blocks[b].x, blocks[b].y;
      blocks := blocks[a := blocks[a].(x := xb, y := yb)];
      blocks := blocks[b := blocks[b].(x := xa, y := ya)];
    }

    /**
     One draw of either annealer; the plain one weighs every net one. Two movable blocks are exchanged
     for good when that costs no more than before, and perhaps otherwise; `moved` tells whether two
     such blocks were drawn.
     */
    method TryMove(nets: seq<Net>, weights: seq<real>, current: real)
      returns (next: real, moved: bool, ghost d: Draw)
      requires blocks != [] && |weights| == |nets| && current == Weighted(blocks, gridW, gridH, nets, weights)
      modifies this`blocks
      ensures d.a < |old(blocks)| && d.b < |old(blocks)| && moved == CanSwap(old(blocks), d.a, d.b)
      ensures next == Weighted(blocks, gridW, gridH, nets, weights)
      ensures blocks == Moved(old(blocks), gridW, gridH, nets, weights, d)
    {
      next := current;
      var i: nat :| i < |blocks|;
      var j: nat :| j < |blocks|;
      var lucky: bool := *;
      d := Draw(i, j, lucky);
      moved := !(i == j || blocks[i].fixed || blocks[j].fixed);
      if moved {
        Exchange(i, j);
        var newCost := WeightedWirelength(nets, weights);
        if newCost - current <= 0.0 || lucky {
          next := newCost;
        } else {
          Exchange(i, j);
          SwapTwice(old(blocks), i, j);
        }
      }
    }

    /** The draws made at one temperature; `total` counts those that drew two movable blocks. */
    method Sweep(nets: seq<Net>, weights: seq<real>, moves: int, current: real, tried: nat, ghost start: seq<Block>)
      returns (next: real, total: nat, ghost draws: seq<Draw>)
      requires blocks == [] ==> moves <= 0
      requires |weights| == |nets| && current == Weighted(blocks, gridW, gridH, nets, weights)
      requires Reached(start, blocks)
      modifies this`blocks
      ensures next == Weighted(blocks, gridW, gridH, nets, weights)
      ensures Reached(start, blocks) && |draws| == if moves > 0 then moves else 0
      ensures blocks == AllMoved(old(blocks), gridW, gridH, nets, weights, draws)
      ensures total == tried + Tries(old(blocks), draws)
    {
      next, total, draws := current, tried, [];
      var m := 0;
      while m < moves
        invariant |draws| == m && (m <= moves || m == 0) && total == tried + Tries(old(blocks), draws)
        invariant blocks == AllMoved(old(blocks), gridW, gridH, nets, weights, draws) && Reached(start, blocks)
        invariant next == Weighted(blocks, gridW, gridH, nets, weights)
      {
        ghost var before := blocks;
        var moved: bool;
        ghost var d: Draw;
        next, moved, d := TryMove(nets, weights, next);
        NextReached(start, before, blocks);
        MovesKeepFixed(old(blocks), gridW, gridH, nets, weights, draws, before);
        assert (draws + [d])[..m] == draws;
        draws := draws + [d];
        if moved {
          total := total + 1;
        }
        m := m + 1;
      }
    }

    /**
     Simulated annealing, followed for at most `sweeps` temperatures: a run of the code that makes `sweeps`
     of them or fewer is this one. `done` tells whether the loop has come to its end, either because the
     temperature fell to the final one or because enough moves were tried.
     */
    method SimulatedAnnealing(nets: seq<Net>, params: Params, sweeps: nat)
      returns (done: bool, tried: nat, ghost made: nat, ghost draws: seq<Draw>)
      requires blocks == [] ==> params.movesPerTemp <= 0 || params.tStart <= params.tEnd || params.maxIterations <= 0
      modifies this
      ensures Reached(old(blocks), blocks)
      ensures |draws| == if params.movesPerTemp > 0 then made * params.movesPerTemp else 0
      ensures blocks == AllMoved(old(blocks), gridW, gridH, nets, Ones(|nets|), draws)
      ensures tried == Tries(old(blocks), draws)
      ensures made <= sweeps && StaysHot(params.tStart, params.tEnd, params.alpha, made)
      ensures done <==> Temperature(params.tStart, params.alpha, made) <= params.tEnd || tried >= params.maxIterations
      ensures !done ==> made == sweeps && wirelength == old(wirelength) && cost == old(cost)
      ensures done ==> wirelength == cost == Hpwl(blocks, gridW, gridH, nets)
    {
      var current := TotalWirelength(nets);
      current, done, tried, made, draws := Cool(nets, params, sweeps, current);
      if done {
        wirelength := current;
        cost := current;
      }
    }

    /** The cooling loop of the plain annealer. */
    method Cool(nets: seq<Net>, params: Params, sweeps: nat, wirelength0: real)
      returns (current: real, done: bool, tried: nat, ghost made: nat, ghost draws: seq<Draw>)
      requires wirelength0 == Hpwl(blocks, gridW, gridH, nets)
      requires blocks == [] ==> params.movesPerTemp <= 0 || params.tStart <= params.tEnd || params.maxIterations <= 0
      modifies this`blocks
      ensures Reached(old(blocks), blocks) && current == Hpwl(blocks, gridW, gridH, nets)
      ensures |draws| == if params.movesPerTemp > 0 then made * params.movesPerTemp else 0
      ensures blocks == AllMoved(old(blocks), gridW, gridH, nets, Ones(|nets|), draws)
      ensures tried == Tries(old(blocks), draws)
      ensures made <= sweeps && StaysHot(params.tStart, params.tEnd, params.alpha, made)
      ensures done <==> Temperature(params.tStart, params.alpha, made) <= params.tEnd || tried >= params.maxIterations
      ensures !done ==> made == sweeps
    {
      var t := params.tStart;
      var weights := Ones(|nets|);
      var steps := 0;
      current, tried, made, draws := wirelength0, 0, 0, [];
      ReachedSelf(blocks);
      while t > params.tEnd && tried < params.maxIterations && steps < sweeps
        invariant steps == made <= sweeps && t == Temperature(params.tStart, params.alpha, made)
        invariant StaysHot(params.tStart, params.tEnd, params.alpha, made)
        invariant blocks == [] ==>
                    params.movesPerTemp <= 0
                    || (made == 0 && (params.tStart <= params.tEnd || params.maxIterations <= 0))
        invariant current == Weighted(blocks, gridW, gridH, nets, weights) && Reached(old(blocks), blocks)
        invariant |draws| == if params.movesPerTemp > 0 then made * params.movesPerTemp else 0
        invariant blocks == AllMoved(old(blocks), gridW, gridH, nets, weights, draws)
        invariant tried == Tries(old(blocks), draws)
        decreases sweeps - steps
      {
        ghost var before, more := blocks, [];
        current, tried, more := Sweep(nets, weights, params.movesPerTemp, current, tried, old(blocks));
        DrawsJoin(old(blocks), gridW, gridH, nets, weights, before, draws, more);
        draws := draws + more;
        OneSweepMore(made, params.movesPerTemp);
        t := t * params.alpha;
        steps, made := steps + 1, made + 1;
      }
      done := !(t > params.tEnd && tried < params.maxIterations);
    }

    /** What each net weighs; `lift` takes a net's criticality to its weight, a power that is left open. */
    method NetWeights(nets: seq<Net>, timed: bool, lift: real -> real) returns (weights: seq<real>)
      ensures weights == Weights(nets, timed, lift)
    {
      weights := seq(|nets|, _ => 1.0);
      if timed {
        var i := 0;
        while i < |nets|
          invariant 0 <= i <= |nets| == |weights|
          invariant forall k :: 0 <= k < |nets| ==> weights[k] == if k < i then Weights(nets, timed, lift)[k] else 1.0
        {
          if nets[i].criticality > 0.0 {
            weights := weights[i := lift(nets[i].criticality)];
          }
          i := i + 1;
        }
      }
    }

    /** Timing-driven annealing: nets weigh more the more critical they are, when a timing graph is given. */
    method TimingDriven(nets: seq<Net>, params: Params, timed: bool, lift: real -> real)
      returns (ghost made: nat, ghost draws: seq<Draw>)
      requires Ends(params.tStart, params.tEnd, params.alpha)
      requires blocks == [] ==> params.movesPerTemp <= 0 || params.tStart <= params.tEnd
      modifies this
      ensures Reached(old(blocks), blocks)
      ensures |draws| == if params.movesPerTemp > 0 then made * params.movesPerTemp else 0
      ensures StaysHot(params.tStart, params.tEnd, params.alpha, made)
      ensures Temperature(params.tStart, params.alpha, made) <= params.tEnd
      ensures blocks == AllMoved(old(blocks), gridW, gridH, nets, Weights(nets, timed, lift), draws)
      ensures wirelength == Hpwl(blocks, gridW, gridH, nets)
      ensures cost == Weighted(blocks, gridW, gridH, nets, Weights(nets, timed, lift))
    {
      var weights := NetWeights(nets, timed, lift);
      var current := WeightedWirelength(nets, weights);
      current, made, draws := CoolWeighted(nets, weights, params, current);
      wirelength := TotalWirelength(nets);
      cost := current;
    }

    /** The cooling loop of the timing-driven annealer, which does not count its moves. */
    method CoolWeighted(nets: seq<Net>, weights: seq<real>, params: Params, cost0: real)
      returns (current: real, ghost made: nat, ghost draws: seq<Draw>)
      requires |weights| == |nets| && cost0 == Weighted(blocks, gridW, gridH, nets, weights)
      requires Ends(params.tStart, params.tEnd, params.alpha)
      requires blocks == [] ==> params.movesPerTemp <= 0 || params.tStart <= params.tEnd
      modifies this`blocks
      ensures Reached(old(blocks), blocks) && current == Weighted(blocks, gridW, gridH, nets, weights)
      ensures |draws| == if params.movesPerTemp > 0 then made * params.movesPerTemp else 0
      ensures StaysHot(params.tStart, params.tEnd, params.alpha, made)
      ensures Temperature(params.tStart, params.alpha, made) <= params.tEnd
      ensures blocks == AllMoved(old(blocks), gridW, gridH, nets, weights, draws)
    {
      var t := params.tStart;
      var tried := 0;
      current, made, draws := cost0, 0, [];
      EndsCools(params.tStart, params.tEnd, params.alpha);
      ghost var last: nat :| Temperature(params.tStart, params.alpha, last) <= params.tEnd;
      ReachedSelf(blocks);
      while t > params.tEnd
        invariant t == Temperature(params.tStart, params.alpha, made) && made <= last
        invariant params.tStart <= params.tEnd ==> made == 0
        invariant StaysHot(params.tStart, params.tEnd, params.alpha, made)
        invariant current == Weighted(blocks, gridW, gridH, nets, weights) && Reached(old(blocks), blocks)
        invariant |draws| == if params.movesPerTemp > 0 then made * params.movesPerTemp else 0
        invariant blocks == AllMoved(old(blocks), gridW, gridH, nets, weights, draws)
        decreases last - made
      {
        ghost var before, more := blocks, [];
        current, tried, more := Sweep(nets, weights, params.movesPerTemp, current, tried, old(blocks));
        DrawsJoin(old(blocks), gridW, gridH, nets, weights, before, draws, more);
        draws := draws + more;
        OneSweepMore(made, params.movesPerTemp);
        t := t * params.alpha;
        made := made + 1;
      }
    }

    method IsLegal() returns (legal: bool)
      ensures legal == Legal(blocks)
      ensures legal <==> forall k, l :: 0 <= k < l < |blocks| ==>
                           blocks[k].x != blocks[l].x || blocks[k].y != blocks[l].y
                           || blocks[k].subBlock != blocks[l].subBlock
    {
      var i := 0;
      while i < |blocks|
        invariant 0 <= i <= |blocks|
        invariant forall k, l :: 0 <= k < l < |blocks| && k < i ==> !Collide(blocks[k], blocks[l])
      {
        var j := i + 1;
        while j < |blocks|
          invariant i < j <= |blocks|
          invariant forall l :: i < l < j ==> !Collide(blocks[i], blocks[l])
        {
          if Collide(blocks[i], blocks[j]) {
            return false;
          }
          j := j + 1;
        }
        i := i + 1;
      }
      return true;
    }
  }

  lemma OneSweepMore(made: nat, moves: int)
    ensures (made + 1) * moves == made * moves + moves && (moves > 0 ==> made * moves >= 0)
  {
  }

  lemma {:induction false} HpwlNext(blocks: seq<Block>, w: int, h: int, nets: seq<Net>, i: nat)
    requires i < |nets|
    ensures Hpwl(blocks, w, h, nets[..i + 1])
         == Hpwl(blocks, w, h, nets[..i]) + HalfPerimeter(NetBox(blocks, w, h, nets[i])) as real
  {
    assert nets[..i + 1][..i] == nets[..i];
    assert Ones(i + 1)[..i] == Ones(i);
  }

  lemma SwapTwice(blocks: seq<Block>, a: nat, b: nat)
    requires CanSwap(blocks, a, b)
    ensures Swap(Swap(blocks, a, b), a, b) == blocks
  {
  }

  lemma NextReached(start: seq<Block>, before: seq<Block>, after: seq<Block>)
    requires Reached(start, before)
    requires before == after || exists a, b :: CanSwap(before, a, b) && after == Swap(before, a, b)
    ensures Reached(start, after) && |after| == |before|
  {
    if before != after {
      var a, b :| CanSwap(before, a, b) && after == Swap(before, a, b);
      ReachedSwap(start, before, a, b);
    }
  }
}
