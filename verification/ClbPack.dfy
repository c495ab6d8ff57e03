/**
 Greedy packing of LUTs and flip-flops into logic blocks of two slices, each with four
 LUTs and four flip-flops. Attractions are reals.
 */
module ClbPack {

  const SLICES := 2
  const SLICE_LUTS := 4
  const SLICE_FFS := 4

  datatype AtomType = LutAtom | FfAtom | CarryAtom | IoAtom | DspAtom | BramAtom

  datatype Atom = Atom(kind: AtomType, inputs: seq<int>, output: int, affinity: int)

  datatype Slice = Slice(luts: nat, ffs: nat, carry: bool)

  datatype Clb = Clb(used: bool, slices: seq<Slice>)

  // ---------------------------------------------------------------- attraction

  function SharedWith(net: int, seed: Atom, n: nat): nat
    requires n <= |seed.inputs|
  {
    if n == 0 then 0
    else SharedWith(net, seed, n - 1) + (if seed.inputs[n - 1] >= 0 && net == seed.inputs[n - 1] then 1 else 0)
  }

  function Shared(a: Atom, seed: Atom, n: nat): nat
    requires n <= |a.inputs|
  {
    if n == 0 then if a.output == seed.output && a.output >= 0 then 1 else 0
    else
      var net := a.inputs[n - 1];
      Shared(a, seed, n - 1)
      + (if net < 0 then 0 else (if net == seed.output then 1 else 0) + SharedWith(net, seed, |seed.inputs|))
  }

  function Attraction(a: Atom, seed: Atom, tradeoff: real): (r: real)
    ensures tradeoff >= 0.0 ==> r >= 0.0
  {
    var crit := if a.affinity > 0 then a.affinity as real / 10.0 else 0.0;
    Shared(a, seed, |a.inputs|) as real + tradeoff * crit
  }

  /** Input positions of the two atoms that carry the same net; `i` ranges below `n`. */
  ghost function SameNets(a: Atom, seed: Atom, n: nat): set<(nat, nat)> {
    set i: nat, j: nat | i < n && i < |a.inputs| && j < |seed.inputs| && Meet(a, seed, i, j) :: (i, j)
  }

  predicate Meet(a: Atom, seed: Atom, i: nat, j: nat)
    requires i < |a.inputs| && j < |seed.inputs|
  {
    a.inputs[i] >= 0 && a.inputs[i] == seed.inputs[j]
  }

  /** Inputs of `a` that the seed drives. */
  ghost function Driven(a: Atom, seed: Atom, n: nat): set<nat> {
    set i: nat | i < n && i < |a.inputs| && a.inputs[i] >= 0 && a.inputs[i] == seed.output
  }

  ghost function Row(a: Atom, seed: Atom, i: nat, m: nat): set<(nat, nat)> {
    set j: nat | j < m && i < |a.inputs| && j < |seed.inputs| && Meet(a, seed, i, j) :: (i, j)
  }

  lemma {:induction false} RowCounts(a: Atom, seed: Atom, i: nat, m: nat)
    requires i < |a.inputs| && m <= |seed.inputs|
    ensures |Row(a, seed, i, m)| == if a.inputs[i] >= 0 then SharedWith(a.inputs[i], seed, m) else 0
  {
    if m == 0 {
      assert Row(a, seed, i, 0) == {};
    } else {
      RowCounts(a, seed, i, m - 1);
      if Meet(a, seed, i, m - 1) {
        assert Row(a, seed, i, m) == Row(a, seed, i, m - 1) + {(i, m - 1)};
      } else {
        assert Row(a, seed, i, m) == Row(a, seed, i, m - 1);
      }
    }
  }

  lemma {:induction false} NextRow(a: Atom, seed: Atom, n: nat)
    requires 0 < n <= |a.inputs|
    ensures |SameNets(a, seed, n)| == |SameNets(a, seed, n - 1)| + |Row(a, seed, n - 1, |seed.inputs|)|
  {
    var all, fewer, row := SameNets(a, seed, n), SameNets(a, seed, n - 1), Row(a, seed, n - 1, |seed.inputs|);
    forall p | p in all ensures p in fewer + row {
      if p.0 == n - 1 {
        assert p == (n - 1, p.1);
      } else {
        assert p == (p.0, p.1);
      }
    }
    assert all == fewer + row;
    assert fewer !! row;
  }

  lemma {:induction false} NextDriven(a: Atom, seed: Atom, n: nat)
    requires 0 < n <= |a.inputs|
    ensures |Driven(a, seed, n)|
         == |Driven(a, seed, n - 1)| + if a.inputs[n - 1] >= 0 && a.inputs[n - 1] == seed.output then 1 else 0
  {
    if n - 1 in Driven(a, seed, n) {
      assert Driven(a, seed, n) == Driven(a, seed, n - 1) + {n - 1};
    } else {
      assert Driven(a, seed, n) == Driven(a, seed, n - 1);
    }
  }

  /** What attracts: a common output net, inputs that the seed drives, and pairs of inputs on the same net. */
  lemma {:induction false} SharedIs(a: Atom, seed: Atom, n: nat)
    requires n <= |a.inputs|
    ensures Shared(a, seed, n) == |SameNets(a, seed, n)| + |Driven(a, seed, n)|
                                  + if a.output == seed.output && a.output >= 0 then 1 else 0
  {
    if n == 0 {
      assert SameNets(a, seed, 0) == {} && Driven(a, seed, 0) == {};
    } else {
      SharedIs(a, seed, n - 1);
      RowCounts(a, seed, n - 1, |seed.inputs|);
      NextRow(a, seed, n);
      NextDriven(a, seed, n);
    }
  }

  /** The attraction, from its meaning: nets met, and a tenth of a positive affinity times the weight. */
  lemma {:induction false} AttractionIs(a: Atom, seed: Atom, tradeoff: real)
    ensures Attraction(a, seed, tradeoff) ==
              (|SameNets(a, seed, |a.inputs|)| + |Driven(a, seed, |a.inputs|)|
               + if a.output == seed.output && a.output >= 0 then 1 else 0) as real
              + tradeoff * (if a.affinity > 0 then a.affinity as real / 10.0 else 0.0)
  {
    SharedIs(a, seed, |a.inputs|);
  }

  // ---------------------------------------------------------------- slices and blocks

  predicate FitsSlice(kind: AtomType, s: Slice) {
    match kind
    case LutAtom => s.luts < SLICE_LUTS
    case FfAtom => s.ffs < SLICE_FFS
    case CarryAtom => !s.carry
    case _ => false
  }

  predicate FitsClb(kind: AtomType, c: Clb) {
    exists s :: 0 <= s < |c.slices| && FitsSlice(kind, c.slices[s])
  }

  function Grown(kind: AtomType, s: Slice): Slice {
    match kind
    case LutAtom => s.(luts := s.luts + 1)
    case FfAtom => s.(ffs := s.ffs + 1)
    case _ => s
  }

  /** No slice holds more than it has room for. */
  ghost predicate WithinCapacity(c: Clb) {
    |c.slices| == SLICES && forall s :: 0 <= s < SLICES ==>
      c.slices[s].luts <= SLICE_LUTS && c.slices[s].ffs <= SLICE_FFS
  }

  function Luts(c: Clb): nat {
    if |c.slices| == SLICES then c.slices[0].luts + c.slices[1].luts else 0
  }

  function Ffs(c: Clb): nat {
    if |c.slices| == SLICES then c.slices[0].ffs + c.slices[1].ffs else 0
  }

  function Empty(): Clb {
    Clb(false, [Slice(0, 0, false), Slice(0, 0, false)])
  }

  predicate Wanted(a: Atom) {
    a.kind == LutAtom || a.kind == FfAtom
  }

  /** How many of the first `n` atoms of the kind are packed. */
  function Packed(atoms: seq<Atom>, packed: seq<bool>, kind: AtomType, n: nat): nat
    requires n <= |atoms| && n <= |packed|
  {
    if n == 0 then 0
    else Packed(atoms, packed, kind, n - 1) + (if packed[n - 1] && atoms[n - 1].kind == kind then 1 else 0)
  }

  function Total(atoms: seq<Atom>, kind: AtomType, n: nat): nat
    requires n <= |atoms|
  {
    if n == 0 then 0 else Total(atoms, kind, n - 1) + (if atoms[n - 1].kind == kind then 1 else 0)
  }

  lemma {:induction false} PackedOneMore(atoms: seq<Atom>, packed: seq<bool>, kind: AtomType, n: nat, i: nat)
    requires n <= |atoms| && n <= |packed| && i < |atoms| && i < |packed| && !packed[i]
    ensures Packed(atoms, packed[i := true], kind, n)
         == Packed(atoms, packed, kind, n) + (if i < n && atoms[i].kind == kind then 1 else 0)
  {
    if n > 0 { PackedOneMore(atoms, packed, kind, n - 1, i); }
  }

  lemma {:induction false} NonePacked(atoms: seq<Atom>, packed: seq<bool>, kind: AtomType, n: nat)
    requires n <= |atoms| && n <= |packed| && forall i :: 0 <= i < n ==> !packed[i]
    ensures Packed(atoms, packed, kind, n) == 0
  {
    if n > 0 { NonePacked(atoms, packed, kind, n - 1); }
  }

  lemma {:induction false} PackedAtMost(atoms: seq<Atom>, packed: seq<bool>, kind: AtomType, n: nat)
    requires n <= |atoms| && n <= |packed|
    ensures Packed(atoms, packed, kind, n) <= Total(atoms, kind, n)
    ensures Packed(atoms, packed, kind, n) == Total(atoms, kind, n) <==>
            forall i :: 0 <= i < n && atoms[i].kind == kind ==> packed[i]
  {
    if n > 0 { PackedAtMost(atoms, packed, kind, n - 1); }
  }

  // ---------------------------------------------------------------- how many blocks

  /** Every LUT and flip-flop is packed. */
  ghost predicate AllPacked(atoms: seq<Atom>, packed: seq<bool>)
    requires |packed| == |atoms|
  {
    forall i :: 0 <= i < |atoms| && Wanted(atoms[i]) ==> packed[i]
  }

  ghost predicate AllOf(atoms: seq<Atom>, kind: AtomType) {
    forall i :: 0 <= i < |atoms| ==> atoms[i].kind == kind
  }

  /** Wanted atoms packed, by kind. */
  function Done(atoms: seq<Atom>, packed: seq<bool>): nat
    requires |packed| == |atoms|
  {
    Packed(atoms, packed, LutAtom, |atoms|) + Packed(atoms, packed, FfAtom, |atoms|)
  }

  function Work(atoms: seq<Atom>): nat {
    Total(atoms, LutAtom, |atoms|) + Total(atoms, FfAtom, |atoms|)
  }

  function Carries(atoms: seq<Atom>): nat {
    Total(atoms, CarryAtom, |atoms|)
  }

  lemma DoneIffAllPacked(atoms: seq<Atom>, packed: seq<bool>)
    requires |packed| == |atoms|
    ensures Done(atoms, packed) <= Work(atoms) && (Done(atoms, packed) == Work(atoms) <==> AllPacked(atoms, packed))
  {
    PackedAtMost(atoms, packed, LutAtom, |atoms|);
    PackedAtMost(atoms, packed, FfAtom, |atoms|);
  }

  function Least(a: nat, b: nat): nat {
    if a < b then a else b
  }

  /** Enough blocks for `n` atoms, eight to a block, or all there is room for. */
  function EightEach(n: nat, places: nat): nat {
    Least((n + 7) / 8, places)
  }

  function NineEach(n: nat, places: nat): nat {
    Least((n + 8) / 9, places)
  }

  /**
   What the filled blocks say about the number of blocks, once packing stops: `packed` of the `wanted` atoms are packed,
   and `held` atoms in all, of at most `offered`.
   */
  lemma BlockCount(wanted: nat, packed: nat, held: nat, offered: nat, blocks: nat, places: nat)
    requires packed <= wanted && (packed == wanted || blocks == places) && blocks <= places
    requires held <= offered && packed <= 9 * blocks && (blocks > 0 ==> held > 8 * (blocks - 1))
    requires packed < wanted ==> held >= 8 * blocks
    ensures NineEach(wanted, places) <= blocks <= EightEach(offered, places)
    ensures packed <= 8 * blocks && offered == wanted ==> blocks == EightEach(wanted, places)
  {
  }

  // ---------------------------------------------------------------- recounting a fabric

  function ColumnSum(column: seq<Clb>, f: Clb -> nat): nat {
    if column == [] then 0 else ColumnSum(column[..|column| - 1], f) + f(column[|column| - 1])
  }

  function GridSum(grid: seq<seq<Clb>>, f: Clb -> nat): nat {
    if grid == [] then 0 else GridSum(grid[..|grid| - 1], f) + ColumnSum(grid[|grid| - 1], f)
  }

  function UsedOne(c: Clb): nat {
    if c.used then 1 else 0
  }

  function UsedLuts(c: Clb): nat {
    if c.used then Luts(c) else 0
  }

  function UsedFfs(c: Clb): nat {
    if c.used then Ffs(c) else 0
  }

  lemma {:induction false} ColumnUpdated(column: seq<Clb>, y: nat, c: Clb, f: Clb -> nat)
    requires y < |column|
    ensures ColumnSum(column[y := c], f) == ColumnSum(column, f) - f(column[y]) + f(c)
  {
    var n := |column| - 1;
    if y < n {
      ColumnUpdated(column[..n], y, c, f);
      assert column[y := c][..n] == column[..n][y := c];
    } else {
      assert column[y := c][..n] == column[..n];
    }
  }

  lemma {:induction false} GridUpdated(grid: seq<seq<Clb>>, x: nat, y: nat, c: Clb, f: Clb -> nat)
    requires x < |grid| && y < |grid[x]|
    ensures GridSum(grid[x := grid[x][y := c]], f) == GridSum(grid, f) - f(grid[x][y]) + f(c)
  {
    var n := |grid| - 1;
    var column := grid[x][y := c];
    if x < n {
      GridUpdated(grid[..n], x, y, c, f);
      assert grid[x := column][..n] == grid[..n][x := column];
    } else {
      assert grid[x := column][..n] == grid[..n];
      ColumnUpdated(grid[x], y, c, f);
    }
  }

  lemma {:induction false} ColumnOfZeros(column: seq<Clb>, f: Clb -> nat)
    requires forall y :: 0 <= y < |column| ==> f(column[y]) == 0
    ensures ColumnSum(column, f) == 0
  {
    if column != [] { ColumnOfZeros(column[..|column| - 1], f); }
  }

  lemma {:induction false} GridOfZeros(grid: seq<seq<Clb>>, f: Clb -> nat)
    requires forall x, y :: 0 <= x < |grid| && 0 <= y < |grid[x]| ==> f(grid[x][y]) == 0
    ensures GridSum(grid, f) == 0
  {
    if grid != [] {
      var n := |grid| - 1;
      assert forall x :: 0 <= x < n ==> grid[..n][x] == grid[x];
      GridOfZeros(grid[..n], f);
      ColumnOfZeros(grid[n], f);
    }
  }

  // ---------------------------------------------------------------- what greedy packing picks

  /** These atoms are packed as well. */
  function Marked(packed: seq<bool>, picks: seq<nat>): (r: seq<bool>)
    ensures |r| == |packed| && forall i :: 0 <= i < |r| ==> r[i] == (packed[i] || i in picks)
  {
    seq(|packed|, i requires 0 <= i < |packed| => packed[i] || i in picks)
  }

  /** The block with one more atom in the first slice that has room for it. */
  function Placed(kind: AtomType, c: Clb): (r: Clb)
    requires |c.slices| == SLICES
    ensures |r.slices| == SLICES
  {
    if FitsSlice(kind, c.slices[0]) then c.(slices := [Grown(kind, c.slices[0]), c.slices[1]])
    else if FitsSlice(kind, c.slices[1]) then c.(slices := [c.slices[0], Grown(kind, c.slices[1])])
    else c
  }

  ghost predicate AtomsOf(atoms: seq<Atom>, picks: seq<nat>) {
    forall k :: 0 <= k < |picks| ==> picks[k] < |atoms|
  }

  /** A new block that takes these atoms in order. */
  ghost function BlockOf(atoms: seq<Atom>, picks: seq<nat>): (r: Clb)
    requires AtomsOf(atoms, picks)
    ensures |r.slices| == SLICES
  {
    if picks == [] then Empty().(used := true)
    else Placed(atoms[picks[|picks| - 1]].kind, BlockOf(atoms, picks[..|picks| - 1]))
  }

  /** Carry atoms take up no room: whatever a block holds, another one fits. */
  lemma {:induction false} CarryAlwaysFits(atoms: seq<Atom>, picks: seq<nat>)
    requires AtomsOf(atoms, picks)
    ensures FitsClb(CarryAtom, BlockOf(atoms, picks)) && BlockOf(atoms, picks).used
    ensures forall s :: 0 <= s < SLICES ==> !BlockOf(atoms, picks).slices[s].carry
  {
    if picks != [] {
      CarryAlwaysFits(atoms, picks[..|picks| - 1]);
    }
    assert FitsSlice(CarryAtom, BlockOf(atoms, picks).slices[0]);
  }

  ghost predicate Candidate(atoms: seq<Atom>, packed: seq<bool>, clb: Clb, i: nat) {
    i < |atoms| && i < |packed| && !packed[i] && FitsClb(atoms[i].kind, clb)
  }

  /** `i` is the first of the fitting atoms that attract the most, and attracts more than -1. */
  ghost predicate Best(atoms: seq<Atom>, packed: seq<bool>, clb: Clb, seed: Atom, tradeoff: real, i: nat) {
    && Candidate(atoms, packed, clb, i) && Attraction(atoms[i], seed, tradeoff) > -1.0
    && forall j: nat :: Candidate(atoms, packed, clb, j) ==>
         var x, y := Attraction(atoms[j], seed, tradeoff), Attraction(atoms[i], seed, tradeoff);
         x < y || (x == y && i <= j)
  }

  ghost predicate NoBest(atoms: seq<Atom>, packed: seq<bool>, clb: Clb, seed: Atom, tradeoff: real) {
    forall j: nat :: Candidate(atoms, packed, clb, j) ==> Attraction(atoms[j], seed, tradeoff) <= -1.0
  }

  /** `i` is the first unpacked LUT or flip-flop of greatest affinity. */
  ghost predicate IsSeed(atoms: seq<Atom>, packed: seq<bool>, i: nat) {
    && i < |atoms| == |packed| && !packed[i] && Wanted(atoms[i])
    && forall j :: 0 <= j < |atoms| && !packed[j] && Wanted(atoms[j]) ==>
         atoms[j].affinity < atoms[i].affinity || (atoms[j].affinity == atoms[i].affinity && i <= j)
  }

  /** Atom number `k` of the block is the best one for its seed at that moment. */
  ghost predicate Picked(atoms: seq<Atom>, packed: seq<bool>, tradeoff: real, picks: seq<nat>, k: nat)
    requires AtomsOf(atoms, picks) && 0 < k < |picks|
  {
    Best(atoms, Marked(packed, picks[..k]), BlockOf(atoms, picks[..k]), atoms[picks[0]], tradeoff, picks[k])
  }

  /** After its seed a block takes the best atom each time, eight times or until there is none. */
  ghost predicate Greedy(atoms: seq<Atom>, packed: seq<bool>, tradeoff: real, picks: seq<nat>) {
    && Growing(atoms, packed, tradeoff, picks)
    && (|picks| == 9 || NoBest(atoms, Marked(packed, picks), BlockOf(atoms, picks), atoms[picks[0]], tradeoff))
  }

  ghost predicate Growing(atoms: seq<Atom>, packed: seq<bool>, tradeoff: real, picks: seq<nat>) {
    && AtomsOf(atoms, picks) && 0 < |picks| <= 9
    && forall k: nat {:trigger Picked(atoms, packed, tradeoff, picks, k)} ::
         0 < k < |picks| ==> Picked(atoms, packed, tradeoff, picks, k)
  }

  lemma {:induction false} GrowsBy(atoms: seq<Atom>, packed: seq<bool>, tradeoff: real, picks: seq<nat>, i: nat)
    requires Growing(atoms, packed, tradeoff, picks) && |picks| < 9
    requires Best(atoms, Marked(packed, picks), BlockOf(atoms, picks), atoms[picks[0]], tradeoff, i)
    ensures Growing(atoms, packed, tradeoff, picks + [i])
    ensures Marked(packed, picks + [i]) == Marked(packed, picks)[i := true]
    ensures BlockOf(atoms, picks + [i]) == Placed(atoms[i].kind, BlockOf(atoms, picks))
  {
    var more := picks + [i];
    assert more[..|picks|] == picks;
    forall k: nat | 0 < k < |more| ensures Picked(atoms, packed, tradeoff, more, k) {
      if k < |picks| {
        assert Picked(atoms, packed, tradeoff, picks, k);
        assert more[..k] == picks[..k];
      }
    }
  }

  /** The atoms packed by these blocks, from nothing packed. */
  ghost function PackedBy(n: nat, blocks: seq<seq<nat>>): (r: seq<bool>)
    ensures |r| == n
  {
    if blocks == [] then seq(n, _ => false)
    else Marked(PackedBy(n, blocks[..|blocks| - 1]), blocks[|blocks| - 1])
  }

  /** Block number `k` starts from the best seed then, and is filled greedily. */
  ghost predicate BlockPicked(atoms: seq<Atom>, tradeoff: real, blocks: seq<seq<nat>>, k: nat)
    requires k < |blocks|
  {
    var packed := PackedBy(|atoms|, blocks[..k]);
    Greedy(atoms, packed, tradeoff, blocks[k]) && IsSeed(atoms, packed, blocks[k][0])
  }

  ghost predicate AllPicked(atoms: seq<Atom>, tradeoff: real, blocks: seq<seq<nat>>) {
    forall k: nat {:trigger BlockPicked(atoms, tradeoff, blocks, k)} ::
      k < |blocks| ==> BlockPicked(atoms, tradeoff, blocks, k)
  }

  /** The blocks that the picks make. */
  ghost function AllBlocks(atoms: seq<Atom>, tradeoff: real, blocks: seq<seq<nat>>): (r: seq<Clb>)
    requires AllPicked(atoms, tradeoff, blocks)
    ensures |r| == |blocks|
  {
    seq(|blocks|, k requires 0 <= k < |blocks| =>
      assert BlockPicked(atoms, tradeoff, blocks, k); BlockOf(atoms, blocks[k]))
  }

  /** The atoms packed and the blocks filled so far are those of the picks. */
  ghost predicate History(atoms: seq<Atom>, tradeoff: real, packed: seq<bool>, blocks: seq<seq<nat>>,
                          placed: seq<Clb>)
  {
    && AllPicked(atoms, tradeoff, blocks) && packed == PackedBy(|atoms|, blocks)
    && placed == AllBlocks(atoms, tradeoff, blocks)
  }

  lemma {:induction false} NoHistory(atoms: seq<Atom>, tradeoff: real, packed: seq<bool>)
    requires packed == seq(|atoms|, _ => false)
    ensures History(atoms, tradeoff, packed, [], [])
  {
  }

  lemma {:induction false} HistoryGrows(atoms: seq<Atom>, tradeoff: real, packed: seq<bool>, blocks: seq<seq<nat>>,
                                        placed: seq<Clb>, picks: seq<nat>, after: seq<bool>, clb: Clb)
    requires History(atoms, tradeoff, packed, blocks, placed)
    requires Greedy(atoms, packed, tradeoff, picks) && IsSeed(atoms, packed, picks[0])
    requires after == Marked(packed, picks) && clb == BlockOf(atoms, picks)
    ensures History(atoms, tradeoff, after, blocks + [picks], placed + [clb])
  {
    var more := blocks + [picks];
    assert more[..|blocks|] == blocks;
    forall k: nat | k < |more| ensures BlockPicked(atoms, tradeoff, more, k) {
      if k < |blocks| {
        assert BlockPicked(atoms, tradeoff, blocks, k);
        assert more[..k] == blocks[..k];
      }
    }
  }

  // ---------------------------------------------------------------- filling one block

  /** The first unpacked LUT or flip-flop of greatest affinity, or -1. */
  method FindSeed(atoms: seq<Atom>, packed: array<bool>) returns (seed: int)
    requires packed.Length == |atoms|
    ensures -1 <= seed < |atoms|
    ensures seed == -1 <==> AllPacked(atoms, packed[..])
    ensures seed >= 0 ==> IsSeed(atoms, packed[..], seed)
    ensures seed >= 0 ==> Wanted(atoms[seed]) && !packed[seed]
    ensures seed >= 0 ==> forall i :: 0 <= i < |atoms| && !packed[i] && Wanted(atoms[i]) ==>
              atoms[i].affinity < atoms[seed].affinity || (atoms[i].affinity == atoms[seed].affinity && seed <= i)
  {
    seed := -1;
    var i := 0;
    while i < |atoms|
      invariant 0 <= i <= |atoms| && -1 <= seed < i
      invariant seed == -1 ==> forall k :: 0 <= k < i && Wanted(atoms[k]) ==> packed[k]
      invariant seed >= 0 ==> Wanted(atoms[seed]) && !packed[seed]
      invariant seed >= 0 ==> forall k :: 0 <= k < i && !packed[k] && Wanted(atoms[k]) ==>
                  atoms[k].affinity < atoms[seed].affinity || (atoms[k].affinity == atoms[seed].affinity && seed <= k)
    {
      if !packed[i] && Wanted(atoms[i]) {
        if seed == -1 || atoms[i].affinity > atoms[seed].affinity {
          seed := i;
        }
      }
      i := i + 1;
    }
  }

  /** The first unpacked atom that fits with the greatest attraction above -1, or -1. */
  method FindBest(atoms: seq<Atom>, packed: array<bool>, clb: Clb, seed: Atom, tradeoff: real) returns (best: int)
    requires packed.Length == |atoms|
    ensures -1 <= best < |atoms|
    ensures best >= 0 ==>
              !packed[best] && FitsClb(atoms[best].kind, clb) && Attraction(atoms[best], seed, tradeoff) > -1.0
    ensures best == -1 ==> forall i :: 0 <= i < |atoms| && !packed[i] && FitsClb(atoms[i].kind, clb) ==>
              Attraction(atoms[i], seed, tradeoff) <= -1.0
    ensures best >= 0 ==> forall i :: 0 <= i < |atoms| && !packed[i] && FitsClb(atoms[i].kind, clb) ==>
              Attraction(atoms[i], seed, tradeoff) <= Attraction(atoms[best], seed, tradeoff)
    ensures best >= 0 ==> forall i :: 0 <= i < best && !packed[i] && FitsClb(atoms[i].kind, clb) ==>
              Attraction(atoms[i], seed, tradeoff) < Attraction(atoms[best], seed, tradeoff)
  {
    best := -1;
    var bestAttr := -1.0;
    var i := 0;
    while i < |atoms|
      invariant 0 <= i <= |atoms| && -1 <= best < i && bestAttr >= -1.0
      invariant best == -1 ==> bestAttr == -1.0
      invariant best >= 0 ==> !packed[best] && FitsClb(atoms[best].kind, clb)
      invariant best >= 0 ==> bestAttr == Attraction(atoms[best], seed, tradeoff) > -1.0
      invariant forall k :: 0 <= k < i && !packed[k] && FitsClb(atoms[k].kind, clb) ==>
                  Attraction(atoms[k], seed, tradeoff) <= bestAttr
      invariant forall k :: 0 <= k < best && !packed[k] && FitsClb(atoms[k].kind, clb) ==>
                  Attraction(atoms[k], seed, tradeoff) < bestAttr
    {
      if !packed[i] && FitsClb(atoms[i].kind, clb) {
        var attr := Attraction(atoms[i], seed, tradeoff);
        if attr > bestAttr {
          bestAttr := attr;
          best := i;
        }
      }
      i := i + 1;
    }
  }

  /** The atom goes into the first slice it fits. */
  method Place(kind: AtomType, clb: Clb) returns (r: Clb)
    requires |clb.slices| == SLICES && FitsClb(kind, clb)
    ensures exists s :: 0 <= s < SLICES && FitsSlice(kind, clb.slices[s])
              && (forall t :: 0 <= t < s ==> !FitsSlice(kind, clb.slices[t]))
              && r == clb.(slices := clb.slices[s := Grown(kind, clb.slices[s])])
    ensures r == Placed(kind, clb)
  {
    var s := 0;
    while !FitsSlice(kind, clb.slices[s])
      invariant 0 <= s < SLICES && forall t :: 0 <= t < s ==> !FitsSlice(kind, clb.slices[t])
      decreases SLICES - s
    {
      s := s + 1;
    }
    r := clb.(slices := clb.slices[s := Grown(kind, clb.slices[s])]);
    assert r.slices == Placed(kind, clb).slices;
  }

  lemma PlacedCounts(kind: AtomType, clb: Clb, r: Clb, s: nat)
    requires WithinCapacity(clb) && s < SLICES && FitsSlice(kind, clb.slices[s])
    requires r == clb.(slices := clb.slices[s := Grown(kind, clb.slices[s])])
    ensures WithinCapacity(r)
    ensures Luts(r) == Luts(clb) + (if kind == LutAtom then 1 else 0)
    ensures Ffs(r) == Ffs(clb) + (if kind == FfAtom then 1 else 0)
  {
  }

  /** All atoms packed, the carry atoms with them, which take up a place in a block without being counted. */
  function Held(atoms: seq<Atom>, packed: seq<bool>): nat
    requires |packed| == |atoms|
  {
    Done(atoms, packed) + Packed(atoms, packed, CarryAtom, |atoms|)
  }

  /** The block's counters are the atoms packed into it. */
  ghost predicate Tallies(atoms: seq<Atom>, before: seq<bool>, now: seq<bool>, clb: Clb)
    requires |before| == |atoms| == |now|
  {
    && WithinCapacity(clb)
    && Packed(atoms, now, LutAtom, |atoms|) == Packed(atoms, before, LutAtom, |atoms|) + Luts(clb)
    && Packed(atoms, now, FfAtom, |atoms|) == Packed(atoms, before, FfAtom, |atoms|) + Ffs(clb)
    && Packed(atoms, now, CarryAtom, |atoms|) >= Packed(atoms, before, CarryAtom, |atoms|)
    && (forall i :: 0 <= i < |atoms| && before[i] ==> now[i])
  }

  /** No unpacked atom fits the block any more. */
  ghost predicate NothingFits(atoms: seq<Atom>, packed: seq<bool>, clb: Clb)
    requires |packed| == |atoms|
  {
    forall i :: 0 <= i < |atoms| && !packed[i] ==> !FitsClb(atoms[i].kind, clb)
  }

  /** Packs one more atom. */
  method PackAtom(atoms: seq<Atom>, packed: array<bool>, clb: Clb, i: nat, ghost before: seq<bool>) returns (r: Clb)
    requires packed.Length == |atoms| == |before| && i < |atoms| && !packed[i] && FitsClb(atoms[i].kind, clb)
    requires Tallies(atoms, before, packed[..], clb)
    modifies packed
    ensures packed[..] == old(packed[..])[i := true] && r == Placed(atoms[i].kind, clb)
    ensures Tallies(atoms, before, packed[..], r) && r.used == clb.used
    ensures Held(atoms, packed[..]) == Held(atoms, old(packed[..])) + 1
    ensures Luts(r) + Ffs(r) == Luts(clb) + Ffs(clb) + (if Wanted(atoms[i]) then 1 else 0)
  {
    r := Place(atoms[i].kind, clb);
    ghost var s :| 0 <= s < SLICES && FitsSlice(atoms[i].kind, clb.slices[s])
                   && r == clb.(slices := clb.slices[s := Grown(atoms[i].kind, clb.slices[s])]);
    PlacedCounts(atoms[i].kind, clb, r, s);
    PackedOneMore(atoms, packed[..], LutAtom, |atoms|, i);
    PackedOneMore(atoms, packed[..], FfAtom, |atoms|, i);
    PackedOneMore(atoms, packed[..], CarryAtom, |atoms|, i);
    ghost var now := packed[..];
    packed[i] := true;
    assert packed[..] == now[i := true];
  }

  /** Starts a block with the seed and attracts up to eight more atoms, each the best one then. */
  method FillClb(atoms: seq<Atom>, packed: array<bool>, seed: nat, tradeoff: real)
    returns (clb: Clb, ghost picks: seq<nat>)
    requires packed.Length == |atoms| && seed < |atoms| && Wanted(atoms[seed]) && !packed[seed]
    modifies packed
    ensures Greedy(atoms, old(packed[..]), tradeoff, picks) && picks[0] == seed
    ensures packed[..] == Marked(old(packed[..]), picks) && clb == BlockOf(atoms, picks)
    ensures Tallies(atoms, old(packed[..]), packed[..], clb) && clb.used
    ensures 1 <= Luts(clb) + Ffs(clb) <= Held(atoms, packed[..]) - Held(atoms, old(packed[..])) <= 9
    ensures tradeoff >= 0.0 ==>
              Held(atoms, packed[..]) == Held(atoms, old(packed[..])) + 9 || NothingFits(atoms, packed[..], clb)
  {
    ghost var before := packed[..];
    clb := Empty().(used := true);
    assert FitsSlice(atoms[seed].kind, clb.slices[0]);
    clb := PackAtom(atoms, packed, clb, seed, before);
    picks := [seed];
    SeedAlone(atoms, before, seed);
    var iter := 0;
    while iter < SLICES * SLICE_LUTS
      invariant 0 <= iter <= 8 && clb.used && Tallies(atoms, before, packed[..], clb)
      invariant 1 <= Luts(clb) + Ffs(clb)
      invariant Held(atoms, packed[..]) == Held(atoms, before) + iter + 1
      invariant Growing(atoms, before, tradeoff, picks) && |picks| == iter + 1 && picks[0] == seed
      invariant packed[..] == Marked(before, picks) && clb == BlockOf(atoms, picks)
    {
      var best := FindBest(atoms, packed, clb, atoms[seed], tradeoff);
      BestIs(atoms, packed[..], clb, atoms[seed], tradeoff, best);
      if best < 0 {
        assert tradeoff >= 0.0 ==> NothingFits(atoms, packed[..], clb);
        return;
      }
      ghost var next: nat := best;
      GrowsBy(atoms, before, tradeoff, picks, next);
      clb := PackAtom(atoms, packed, clb, best, before);
      picks := picks + [next];
      iter := iter + 1;
    }
  }

  lemma {:induction false} SeedAlone(atoms: seq<Atom>, before: seq<bool>, seed: nat)
    requires seed < |atoms| == |before|
    ensures Marked(before, [seed]) == before[seed := true] && AtomsOf(atoms, [seed])
    ensures BlockOf(atoms, [seed]) == Placed(atoms[seed].kind, Empty().(used := true))
  {
    assert [seed][..0] == [];
  }

  /** What the search for an attracted atom finds. */
  lemma {:induction false} BestIs(atoms: seq<Atom>, packed: seq<bool>, clb: Clb, seed: Atom, tradeoff: real, best: int)
    requires |packed| == |atoms| && -1 <= best < |atoms|
    requires best >= 0 ==>
               !packed[best] && FitsClb(atoms[best].kind, clb) && Attraction(atoms[best], seed, tradeoff) > -1.0
    requires best == -1 ==> forall i :: 0 <= i < |atoms| && !packed[i] && FitsClb(atoms[i].kind, clb) ==>
               Attraction(atoms[i], seed, tradeoff) <= -1.0
    requires best >= 0 ==> forall i :: 0 <= i < |atoms| && !packed[i] && FitsClb(atoms[i].kind, clb) ==>
               Attraction(atoms[i], seed, tradeoff) <= Attraction(atoms[best], seed, tradeoff)
    requires best >= 0 ==> forall i :: 0 <= i < best && !packed[i] && FitsClb(atoms[i].kind, clb) ==>
               Attraction(atoms[i], seed, tradeoff) < Attraction(atoms[best], seed, tradeoff)
    ensures if best >= 0 then Best(atoms, packed, clb, seed, tradeoff, best)
            else NoBest(atoms, packed, clb, seed, tradeoff)
  {
  }

  /** A block that closes with atoms left over holds at least eight. */
  lemma {:induction false} ClosedHoldsEight(atoms: seq<Atom>, packed: seq<bool>, clb: Clb, held: nat)
    requires |packed| == |atoms| && WithinCapacity(clb) && !AllPacked(atoms, packed) && Luts(clb) + Ffs(clb) <= held
    requires held == 9 || NothingFits(atoms, packed, clb)
    ensures held >= 8
  {
    var i :| 0 <= i < |atoms| && Wanted(atoms[i]) && !packed[i];
    if NothingFits(atoms, packed, clb) {
      assert !FitsClb(atoms[i].kind, clb);
      assert !FitsSlice(atoms[i].kind, clb.slices[0]) && !FitsSlice(atoms[i].kind, clb.slices[1]);
    }
  }

  // ---------------------------------------------------------------- the fabric

  function Rank(x: nat, y: nat, w: nat): nat {
    y * w + x
  }

  lemma {:induction false} RankOfPlace(k: nat, w: nat, h: nat)
    requires w > 0 && k < w * h
    ensures k % w < w && k / w < h && Rank(k % w, k / w, w) == k
  {
    var q := k / w;
    assert k == q * w + k % w;
    assert q >= h ==> q * w >= h * w;
  }

  lemma RankIsInjective(x: nat, y: nat, a: nat, b: nat, w: nat)
    requires x < w && a < w && Rank(x, y, w) == Rank(a, b, w)
    ensures x == a && y == b
  {
    assert y < b ==> (y + 1) * w <= b * w;
    assert b < y ==> (b + 1) * w <= y * w;
  }

  class Fabric {
    const tiles: array2<Clb>

    ghost function Grid(): (r: seq<seq<Clb>>)
      reads tiles
      ensures |r| == tiles.Length0
      ensures forall x :: 0 <= x < tiles.Length0 ==>
                |r[x]| == tiles.Length1 && forall y :: 0 <= y < tiles.Length1 ==> r[x][y] == tiles[x, y]
    {
      seq(tiles.Length0, x requires 0 <= x < tiles.Length0 reads tiles =>
        seq(tiles.Length1, y requires 0 <= y < tiles.Length1 reads tiles => tiles[x, y]))
    }

    /** No block is in use. */
    ghost predicate Unused() reads tiles {
      forall x, y :: 0 <= x < tiles.Length0 && 0 <= y < tiles.Length1 ==> !tiles[x, y].used
    }

    constructor (w: nat, h: nat)
      ensures fresh(tiles) && tiles.Length0 == w && tiles.Length1 == h && Unused()
    {
      tiles := new Clb[w, h]((_, _) => Empty());
    }

    /** Counts blocks, LUTs and flip-flops in use, column by column. */
    method Recount() returns (clbs: nat, luts: nat, ffs: nat)
      ensures clbs == GridSum(Grid(), UsedOne) && luts == GridSum(Grid(), UsedLuts) && ffs == GridSum(Grid(), UsedFfs)
    {
      ghost var grid := Grid();
      clbs, luts, ffs := 0, 0, 0;
      var x := 0;
      while x < tiles.Length0
        invariant 0 <= x <= tiles.Length0
        invariant clbs == GridSum(grid[..x], UsedOne)
        invariant luts == GridSum(grid[..x], UsedLuts) && ffs == GridSum(grid[..x], UsedFfs)
      {
        assert grid[..x + 1][..x] == grid[..x];
        var c, l, f := RecountColumn(x);
        clbs, luts, ffs := clbs + c, luts + l, ffs + f;
        x := x + 1;
      }
      assert grid[..x] == grid;
    }

    method RecountColumn(x: nat) returns (clbs: nat, luts: nat, ffs: nat)
      requires x < tiles.Length0
      ensures clbs == ColumnSum(Grid()[x], UsedOne) && luts == ColumnSum(Grid()[x], UsedLuts)
      ensures ffs == ColumnSum(Grid()[x], UsedFfs)
    {
      ghost var column := Grid()[x];
      clbs, luts, ffs := 0, 0, 0;
      var y := 0;
      while y < tiles.Length1
        invariant 0 <= y <= tiles.Length1
        invariant clbs == ColumnSum(column[..y], UsedOne)
        invariant luts == ColumnSum(column[..y], UsedLuts) && ffs == ColumnSum(column[..y], UsedFfs)
      {
        assert column[..y + 1][..y] == column[..y];
        if tiles[x, y].used {
          clbs, luts, ffs := clbs + 1, luts + Luts(tiles[x, y]), ffs + Ffs(tiles[x, y]);
        }
        y := y + 1;
      }
      assert column[..y] == column;
    }

    /** The first places, row by row, hold these blocks, in use and within capacity; the others are as in `start`. */
    ghost predicate FilledWith(placed: seq<Clb>, start: seq<seq<Clb>>)
      requires |start| == tiles.Length0 && forall x :: 0 <= x < |start| ==> |start[x]| == tiles.Length1
      reads tiles
    {
      && (forall k :: 0 <= k < |placed| ==> placed[k].used && WithinCapacity(placed[k]))
      && forall x: nat, y: nat {:trigger tiles[x, y]} :: x < tiles.Length0 && y < tiles.Length1 ==>
           var k := Rank(x, y, tiles.Length0);
           tiles[x, y] == if k < |placed| then placed[k] else start[x][y]
    }

    static ghost predicate Blank(start: seq<seq<Clb>>) {
      forall x, y :: 0 <= x < |start| && 0 <= y < |start[x]| ==> !start[x][y].used
    }

    /** The totals are what a recount of the fabric gives. */
    ghost predicate Recounted(clbs: nat, luts: nat, ffs: nat) reads tiles {
      clbs == GridSum(Grid(), UsedOne) && luts == GridSum(Grid(), UsedLuts) && ffs == GridSum(Grid(), UsedFfs)
    }

    method SetTile(k: nat, clb: Clb, ghost start: seq<seq<Clb>>, ghost placed: seq<Clb>)
      requires tiles.Length0 > 0 && k < tiles.Length0 * tiles.Length1 && clb.used && WithinCapacity(clb)
      requires |start| == tiles.Length0 && forall x :: 0 <= x < |start| ==> |start[x]| == tiles.Length1
      requires FilledWith(placed, start) && |placed| == k
      modifies tiles
      ensures FilledWith(placed + [clb], start)
      ensures Blank(start) ==>
                && GridSum(Grid(), UsedOne) == old(GridSum(Grid(), UsedOne)) + 1
                && GridSum(Grid(), UsedLuts) == old(GridSum(Grid(), UsedLuts)) + Luts(clb)
                && GridSum(Grid(), UsedFfs) == old(GridSum(Grid(), UsedFfs)) + Ffs(clb)
    {
      RankOfPlace(k, tiles.Length0, tiles.Length1);
      var cx, cy := k % tiles.Length0, k / tiles.Length0;
      ghost var grid := Grid();
      GridUpdated(grid, cx, cy, clb, UsedOne);
      GridUpdated(grid, cx, cy, clb, UsedLuts);
      GridUpdated(grid, cx, cy, clb, UsedFfs);
      assert Blank(start) ==> !tiles[cx, cy].used;
      tiles[cx, cy] := clb;
      assert Grid()[cx] == grid[cx][cy := clb];
      forall x | 0 <= x < |grid| ensures Grid()[x] == grid[cx := grid[cx][cy := clb]][x] {
      }
      assert Grid() == grid[cx := grid[cx][cy := clb]];
      forall x, y | 0 <= x < tiles.Length0 && 0 <= y < tiles.Length1 && (x != cx || y != cy)
        ensures Rank(x, y, tiles.Length0) != k
      {
        if Rank(x, y, tiles.Length0) == k { RankIsInjective(x, y, cx, cy, tiles.Length0); }
      }
    }

    /** The running totals are the packed atoms, within the blocks' capacity. */
    static ghost predicate Books(atoms: seq<Atom>, packed: seq<bool>, clbs: nat, luts: nat, ffs: nat)
      requires |packed| == |atoms|
    {
      && luts == Packed(atoms, packed, LutAtom, |atoms|) && ffs == Packed(atoms, packed, FfAtom, |atoms|)
      && luts <= 8 * clbs && ffs <= 8 * clbs && luts + ffs <= 9 * clbs
    }

    /** One more block, filled and put in its place. */
    method AddBlock(atoms: seq<Atom>, packed: array<bool>, seed: nat, tradeoff: real, clbs: nat, luts: nat, ffs: nat,
                    ghost start: seq<seq<Clb>>, ghost placed: seq<Clb>)
      returns (newLuts: nat, newFfs: nat, ghost clb: Clb, ghost picks: seq<nat>)
      requires packed.Length == |atoms| && seed < |atoms| && Wanted(atoms[seed]) && !packed[seed]
      requires Books(atoms, packed[..], clbs, luts, ffs) && clbs < tiles.Length0 * tiles.Length1
      requires tradeoff >= 0.0 ==> Dense(atoms, packed[..], clbs)
      requires |start| == tiles.Length0 && forall x :: 0 <= x < |start| ==> |start[x]| == tiles.Length1
      requires FilledWith(placed, start) && |placed| == clbs && (Blank(start) ==> Recounted(clbs, luts, ffs))
      modifies tiles, packed
      ensures Greedy(atoms, old(packed[..]), tradeoff, picks) && picks[0] == seed
      ensures packed[..] == Marked(old(packed[..]), picks) && clb == BlockOf(atoms, picks)
      ensures FilledWith(placed + [clb], start) && Books(atoms, packed[..], clbs + 1, newLuts, newFfs)
      ensures Blank(start) ==> Recounted(clbs + 1, newLuts, newFfs)
      ensures tradeoff >= 0.0 ==> Dense(atoms, packed[..], clbs + 1)
    {
      assert tiles.Length0 > 0;
      ghost var before := packed[..];
      var filled: Clb;
      filled, picks := FillClb(atoms, packed, seed, tradeoff);
      clb := filled;
      if tradeoff >= 0.0 && !AllPacked(atoms, packed[..]) {
        ClosedHoldsEight(atoms, packed[..], clb, Held(atoms, packed[..]) - Held(atoms, before));
      }
      SetTile(clbs, filled, start, placed);
      newLuts, newFfs := luts + Luts(filled), ffs + Ffs(filled);
    }

    /** Packs the netlist, into blocks set up anew; on an unused fabric a recount finds the same totals. */
    method Pack(atoms: seq<Atom>, tradeoff: real)
      returns (clbs: nat, luts: nat, ffs: nat, ghost packed: seq<bool>, ghost blocks: seq<seq<nat>>,
               ghost placed: seq<Clb>)
      modifies tiles
      ensures |blocks| == clbs <= tiles.Length0 * tiles.Length1 && |packed| == |atoms|
      ensures History(atoms, tradeoff, packed, blocks, placed) && FilledWith(placed, old(Grid()))
      ensures Books(atoms, packed, clbs, luts, ffs)
      ensures old(Unused()) ==> Recounted(clbs, luts, ffs)
      ensures AllPacked(atoms, packed) || clbs == tiles.Length0 * tiles.Length1
      ensures tradeoff >= 0.0 ==>
                NineEach(Work(atoms), tiles.Length0 * tiles.Length1) <= clbs
                  <= EightEach(Work(atoms) + Carries(atoms), tiles.Length0 * tiles.Length1)
      ensures tradeoff >= 0.0 && (AllOf(atoms, LutAtom) || AllOf(atoms, FfAtom)) ==>
                clbs == EightEach(|atoms|, tiles.Length0 * tiles.Length1)
    {
      ghost var start := Grid();
      var done := new bool[|atoms|](_ => false);
      NonePacked(atoms, done[..], LutAtom, |atoms|);
      NonePacked(atoms, done[..], FfAtom, |atoms|);
      NonePacked(atoms, done[..], CarryAtom, |atoms|);
      NothingFilled();
      NoHistory(atoms, tradeoff, done[..]);
      clbs, luts, ffs, blocks, placed := FillBlocks(atoms, tradeoff, done, start);
      packed := done[..];
      if tradeoff >= 0.0 {
        PackedBlocks(atoms, packed, clbs, tiles.Length0 * tiles.Length1);
      }
    }

    /** Fills block after block until all is packed or the grid is full. */
    method FillBlocks(atoms: seq<Atom>, tradeoff: real, done: array<bool>, ghost start: seq<seq<Clb>>)
      returns (clbs: nat, luts: nat, ffs: nat, ghost blocks: seq<seq<nat>>, ghost placed: seq<Clb>)
      requires |start| == tiles.Length0 && forall x :: 0 <= x < |start| ==> |start[x]| == tiles.Length1
      requires done.Length == |atoms| && History(atoms, tradeoff, done[..], [], [])
      requires FilledWith([], start) && (Blank(start) ==> Recounted(0, 0, 0))
      requires Books(atoms, done[..], 0, 0, 0) && (tradeoff >= 0.0 ==> Dense(atoms, done[..], 0))
      modifies tiles, done
      ensures FilledWith(placed, start) && |placed| == |blocks| == clbs <= tiles.Length0 * tiles.Length1
      ensures History(atoms, tradeoff, done[..], blocks, placed)
      ensures Books(atoms, done[..], clbs, luts, ffs) && (Blank(start) ==> Recounted(clbs, luts, ffs))
      ensures tradeoff >= 0.0 ==> Dense(atoms, done[..], clbs)
      ensures AllPacked(atoms, done[..]) || clbs == tiles.Length0 * tiles.Length1
    {
      clbs, luts, ffs, blocks, placed := 0, 0, 0, [], [];
      while true
        invariant FilledWith(placed, start) && |placed| == |blocks| == clbs <= tiles.Length0 * tiles.Length1
        invariant History(atoms, tradeoff, done[..], blocks, placed)
        invariant Books(atoms, done[..], clbs, luts, ffs) && (Blank(start) ==> Recounted(clbs, luts, ffs))
        invariant tradeoff >= 0.0 ==> Dense(atoms, done[..], clbs)
        decreases tiles.Length0 * tiles.Length1 - clbs
      {
        var seed := FindSeed(atoms, done);
        if seed < 0 {
          break;
        }
        if clbs >= tiles.Length0 * tiles.Length1 {
          break;
        }
        ghost var before := done[..];
        ghost var clb, picks;
        luts, ffs, clb, picks := AddBlock(atoms, done, seed, tradeoff, clbs, luts, ffs, start, placed);
        HistoryGrows(atoms, tradeoff, before, blocks, placed, picks, done[..], clb);
        placed, blocks := placed + [clb], blocks + [picks];
        clbs := clbs + 1;
      }
    }

    lemma NothingFilled()
      ensures FilledWith([], Grid()) && (Blank(Grid()) <==> Unused()) && (Blank(Grid()) ==> Recounted(0, 0, 0))
    {
      if Unused() {
        GridOfZeros(Grid(), UsedOne);
        GridOfZeros(Grid(), UsedLuts);
        GridOfZeros(Grid(), UsedFfs);
      }
      if Blank(Grid()) {
        forall x, y | 0 <= x < tiles.Length0 && 0 <= y < tiles.Length1 ensures !tiles[x, y].used {
          assert !Grid()[x][y].used;
        }
      }
    }
  }

  /** Each block so far, but perhaps the last, holds eight atoms; the last does too when atoms are left over. */
  ghost predicate Dense(atoms: seq<Atom>, packed: seq<bool>, clbs: nat)
    requires |packed| == |atoms|
  {
    && (clbs > 0 ==> Held(atoms, packed) > 8 * (clbs - 1))
    && (AllPacked(atoms, packed) || Held(atoms, packed) >= 8 * clbs)
  }

  /** From the loop's bounds to the number of blocks. */
  lemma PackedBlocks(atoms: seq<Atom>, packed: seq<bool>, clbs: nat, places: nat)
    requires |packed| == |atoms| && clbs <= places && (AllPacked(atoms, packed) || clbs == places)
    requires Done(atoms, packed) <= 9 * clbs && Packed(atoms, packed, LutAtom, |atoms|) <= 8 * clbs
    requires Packed(atoms, packed, FfAtom, |atoms|) <= 8 * clbs && Dense(atoms, packed, clbs)
    ensures NineEach(Work(atoms), places) <= clbs <= EightEach(Work(atoms) + Carries(atoms), places)
    ensures AllOf(atoms, LutAtom) || AllOf(atoms, FfAtom) ==> clbs == EightEach(|atoms|, places)
  {
    DoneIffAllPacked(atoms, packed);
    PackedAtMost(atoms, packed, CarryAtom, |atoms|);
    BlockCount(Work(atoms), Done(atoms, packed), Held(atoms, packed), Work(atoms) + Carries(atoms), clbs, places);
    if AllOf(atoms, LutAtom) {
      OneKind(atoms, packed, LutAtom, |atoms|);
    } else if AllOf(atoms, FfAtom) {
      OneKind(atoms, packed, FfAtom, |atoms|);
    }
  }

  lemma {:induction false} OneKind(atoms: seq<Atom>, packed: seq<bool>, kind: AtomType, n: nat)
    requires AllOf(atoms, kind) && n <= |atoms| == |packed|
    ensures Total(atoms, kind, n) == n
    ensures forall other :: other != kind ==> Total(atoms, other, n) == 0 == Packed(atoms, packed, other, n)
  {
    if n > 0 { OneKind(atoms, packed, kind, n - 1); }
  }
}
