/**
 Boolean optimisation of a gate netlist: readers of a buffer, or of an inverter driven by
 an inverter, are moved to the signal it repeats.

 Meaning is the set of consistent wire valuations. Only buffers and inverters are given a
 fixed function; how the other gates relate their inputs, output and next state is a
 parameter of every theorem, so the results hold for any library of gates. A wire
 identifier that names no gate is a free signal.
 */
module Netlist {

  datatype GateType =
    | And | Nand | Or | Nor | Xor | Xnor | Inv | Buf | Mux | Dff | Dlat | Aoi21
    | Oai21 | Fadd | ClkGate | TieHi | TieLo | NoGate

  datatype Gate = Gate(kind: GateType, inputs: seq<int>, outputs: seq<int>)

  const MAX_SWEEPS: nat := 10

  // ---------------------------------------------------------------- meaning

  type Wires = int -> bool

  /** Whether a gate of this kind and identity may show this output and next state on these inputs. */
  type Library = (GateType, int, bool, bool, seq<bool>) -> bool

  ghost function InputValues(g: Gate, val: Wires): (r: seq<bool>)
    ensures |r| == |g.inputs| && forall k :: 0 <= k < |r| ==> r[k] == val(g.inputs[k])
  {
    seq(|g.inputs|, k requires 0 <= k < |g.inputs| => val(g.inputs[k]))
  }

  ghost predicate GateHolds(lib: Library, g: Gate, i: int, val: Wires, next: Wires) {
    var ins := InputValues(g, val);
    if g.kind == Buf && ins != [] then val(i) == ins[0]
    else if g.kind == Inv && ins != [] then val(i) == !ins[0]
    else lib(g.kind, i, val(i), next(i), ins)
  }

  ghost predicate Satisfies(lib: Library, gates: seq<Gate>, val: Wires, next: Wires) {
    forall i {:trigger GateHolds(lib, gates[i], i, val, next)} ::
      0 <= i < |gates| ==> GateHolds(lib, gates[i], i, val, next)
  }

  // ---------------------------------------------------------------- one step

  function Moved(ins: seq<int>, i: int, t: int): (r: seq<int>)
    ensures |r| == |ins| && forall k :: 0 <= k < |ins| ==> r[k] == if ins[k] == i then t else ins[k]
  {
    seq(|ins|, k requires 0 <= k < |ins| => if ins[k] == i then t else ins[k])
  }

  /** Every gate but `keep` that reads `i` reads `t` instead. */
  function Redirected(gates: seq<Gate>, i: int, t: int, keep: int): (r: seq<Gate>)
    ensures |r| == |gates|
    ensures forall j :: 0 <= j < |gates| ==>
              r[j] == if j == keep then gates[j] else gates[j].(inputs := Moved(gates[j].inputs, i, t))
  {
    seq(|gates|, j requires 0 <= j < |gates| =>
      if j == keep then gates[j] else gates[j].(inputs := Moved(gates[j].inputs, i, t)))
  }

  predicate DrivenBuffer(gates: seq<Gate>, i: int) {
    0 <= i < |gates| && gates[i].kind == Buf && gates[i].inputs != []
  }

  predicate DoubleInverter(gates: seq<Gate>, i: int) {
    && 0 <= i < |gates| && gates[i].kind == Inv && gates[i].inputs != []
    && 0 <= gates[i].inputs[0] < |gates|
    && gates[gates[i].inputs[0]].kind == Inv && gates[gates[i].inputs[0]].inputs != []
  }

  /** What gate `i` repeats: a buffer its input, a double inverter the input of the first inverter. */
  function Repeats(gates: seq<Gate>, i: int): int
    requires DrivenBuffer(gates, i) || DoubleInverter(gates, i)
  {
    if DrivenBuffer(gates, i) then gates[i].inputs[0] else gates[gates[i].inputs[0]].inputs[0]
  }

  function Bypassed(gates: seq<Gate>, i: nat): (r: seq<Gate>)
    ensures |r| == |gates|
  {
    if DrivenBuffer(gates, i) then Redirected(gates, i, Repeats(gates, i), i)
    else if DoubleInverter(gates, i) then Redirected(gates, i, Repeats(gates, i), -1)
    else gates
  }

  /** Gate `i` still repeats the same signal after its readers have been moved. */
  lemma RepeatsSurvives(gates: seq<Gate>, i: nat)
    requires DrivenBuffer(gates, i) || DoubleInverter(gates, i)
    ensures DrivenBuffer(Bypassed(gates, i), i) || DoubleInverter(Bypassed(gates, i), i)
    ensures Repeats(Bypassed(gates, i), i) == Repeats(gates, i)
  {
  }

  /** In a consistent valuation a gate shows the value of what it repeats. */
  lemma RepeatsValue(lib: Library, gates: seq<Gate>, val: Wires, next: Wires, i: nat)
    requires DrivenBuffer(gates, i) || DoubleInverter(gates, i)
    requires Satisfies(lib, gates, val, next)
    ensures val(i) == val(Repeats(gates, i))
  {
    assert GateHolds(lib, gates[i], i, val, next);
    if !DrivenBuffer(gates, i) {
      var d := gates[i].inputs[0];
      assert GateHolds(lib, gates[d], d, val, next);
    }
  }

  lemma SameInputsSameHolds(lib: Library, g: Gate, h: Gate, i: int, val: Wires, next: Wires)
    requires g.kind == h.kind && InputValues(g, val) == InputValues(h, val)
    ensures GateHolds(lib, g, i, val, next) == GateHolds(lib, h, i, val, next)
  {
  }

  /** Moving the readers of one gate keeps exactly the consistent valuations. */
  lemma BypassKeepsMeaning(lib: Library, gates: seq<Gate>, r: seq<Gate>, val: Wires, next: Wires, i: nat)
    requires r == Bypassed(gates, i)
    ensures Satisfies(lib, gates, val, next) <==> Satisfies(lib, r, val, next)
  {
    if DrivenBuffer(gates, i) || DoubleInverter(gates, i) {
      RepeatsSurvives(gates, i);
      if Satisfies(lib, gates, val, next) { RepeatsValue(lib, gates, val, next, i); }
      if Satisfies(lib, r, val, next) { RepeatsValue(lib, r, val, next, i); }
      if val(i) == val(Repeats(gates, i)) {
        forall j | 0 <= j < |gates|
          ensures GateHolds(lib, gates[j], j, val, next) == GateHolds(lib, r[j], j, val, next)
        {
          SameInputsSameHolds(lib, gates[j], r[j], j, val, next);
        }
        assert Satisfies(lib, gates, val, next) <==> Satisfies(lib, r, val, next);
      }
    }
  }

  // ---------------------------------------------------------------- sweeps

  /** Gates below `i` visited in order. */
  function SweptTo(gates: seq<Gate>, i: nat): (r: seq<Gate>)
    ensures |r| == |gates|
  {
    if i == 0 then gates else Bypassed(SweptTo(gates, i - 1), i - 1)
  }

  lemma {:induction false} SweepNext(gates: seq<Gate>, i: nat, now: seq<Gate>) returns (next: seq<Gate>)
    requires now == SweptTo(gates, i)
    ensures next == Bypassed(now, i) == SweptTo(gates, i + 1)
    ensures ChangesBelow(gates, i + 1) == (ChangesBelow(gates, i) || ChangesAt(now, i))
  {
    next := Bypassed(now, i);
  }

  predicate Reads(g: Gate, i: int) {
    i in g.inputs
  }

  /** Whether visiting gate `i` counts as a change: always for a double inverter. */
  ghost predicate ChangesAt(gates: seq<Gate>, i: nat) {
    || (DrivenBuffer(gates, i) && exists j :: 0 <= j < |gates| && j != i && Reads(gates[j], i))
    || DoubleInverter(gates, i)
  }

  /** Whether a sweep has changed something by the time it reaches gate `k`. */
  ghost predicate ChangesBelow(gates: seq<Gate>, k: nat) {
    k > 0 && (ChangesBelow(gates, k - 1) || ChangesAt(SweptTo(gates, k - 1), k - 1))
  }

  /** At most `left` sweeps, until one changes nothing. */
  ghost function Optimized(gates: seq<Gate>, left: nat): (r: seq<Gate>)
    ensures |r| == |gates|
    decreases left
  {
    if left == 0 then gates
    else if ChangesBelow(gates, |gates|) then Optimized(SweptTo(gates, |gates|), left - 1)
    else SweptTo(gates, |gates|)
  }

  lemma {:induction false} SweepKeepsMeaning(lib: Library, gates: seq<Gate>, r: seq<Gate>, val: Wires, next: Wires,
                                             i: nat)
    requires r == SweptTo(gates, i)
    ensures Satisfies(lib, gates, val, next) <==> Satisfies(lib, r, val, next)
    decreases i
  {
    if i > 0 {
      var before := SweptTo(gates, i - 1);
      assert r == Bypassed(before, i - 1);
      SweepKeepsMeaning(lib, gates, before, val, next, i - 1);
      BypassKeepsMeaning(lib, before, r, val, next, i - 1);
    }
  }

  /** Optimisation keeps exactly the consistent valuations, whatever the netlist, cyclic or not. */
  lemma {:induction false} OptimizationKeepsMeaning(lib: Library, gates: seq<Gate>, val: Wires, next: Wires, left: nat)
    ensures Satisfies(lib, gates, val, next) <==> Satisfies(lib, Optimized(gates, left), val, next)
    decreases left
  {
    if left > 0 {
      var swept := SweptTo(gates, |gates|);
      SweepKeepsMeaning(lib, gates, swept, val, next, |gates|);
      OptimizationKeepsMeaning(lib, swept, val, next, left - 1);
    }
  }

  // ---------------------------------------------------------------- cycles

  /** Every gate ranks above all that it reads; a netlist has such ranks when it has no cycle. */
  ghost predicate Ranked(gates: seq<Gate>, rank: int -> int) {
    forall j, k :: 0 <= j < |gates| && 0 <= k < |gates[j].inputs| ==> rank(gates[j].inputs[k]) < rank(j)
  }

  lemma {:induction false} RepeatsRanksBelow(gates: seq<Gate>, rank: int -> int, i: nat)
    requires Ranked(gates, rank) && (DrivenBuffer(gates, i) || DoubleInverter(gates, i))
    ensures rank(Repeats(gates, i)) < rank(i)
  {
    if !DrivenBuffer(gates, i) {
      var d := gates[i].inputs[0];
      assert rank(gates[d].inputs[0]) < rank(d);
    }
  }

  lemma {:induction false} BypassKeepsRanks(gates: seq<Gate>, r: seq<Gate>, rank: int -> int, i: nat)
    requires r == Bypassed(gates, i)
    ensures Ranked(gates, rank) ==> Ranked(r, rank)
  {
    if Ranked(gates, rank) && (DrivenBuffer(gates, i) || DoubleInverter(gates, i)) {
      RepeatsRanksBelow(gates, rank, i);
    }
  }

  lemma {:induction false} SweepKeepsRanks(gates: seq<Gate>, r: seq<Gate>, rank: int -> int, i: nat)
    requires r == SweptTo(gates, i)
    ensures Ranked(gates, rank) ==> Ranked(r, rank)
    decreases i
  {
    if i > 0 {
      var before := SweptTo(gates, i - 1);
      assert r == Bypassed(before, i - 1);
      SweepKeepsRanks(gates, before, rank, i - 1);
      BypassKeepsRanks(before, r, rank, i - 1);
    }
  }

  // ---------------------------------------------------------------- buffers that are left

  /** Buffer `b` is read by no other gate, or feeds only on itself. */
  ghost predicate Retired(gates: seq<Gate>, b: int)
    requires 0 <= b < |gates|
  {
    DrivenBuffer(gates, b) ==>
      gates[b].inputs[0] == b || forall j :: 0 <= j < |gates| && j != b ==> !Reads(gates[j], b)
  }

  lemma BypassRetires(gates: seq<Gate>, r: seq<Gate>, i: nat)
    requires i < |gates| && r == Bypassed(gates, i)
    ensures Retired(r, i)
  {
  }

  lemma {:induction false} BypassKeepsRetired(gates: seq<Gate>, r: seq<Gate>, i: nat, b: nat)
    requires i < |gates| && b < |gates| && b != i && Retired(gates, b) && r == Bypassed(gates, i)
    ensures Retired(r, b)
  {
    if DrivenBuffer(gates, b) && gates[b].inputs[0] != b && (DrivenBuffer(gates, i) || DoubleInverter(gates, i)) {
      var t := Repeats(gates, i);
      assert t != b by {
        if DrivenBuffer(gates, i) {
          assert !Reads(gates[i], b);
        } else {
          assert !Reads(gates[gates[i].inputs[0]], b);
        }
      }
      forall j | 0 <= j < |r| && j != b ensures !Reads(r[j], b) {
        assert !Reads(gates[j], b);
      }
    }
  }

  lemma {:induction false} SweepRetires(gates: seq<Gate>, r: seq<Gate>, i: nat, b: nat)
    requires b < i <= |gates| && r == SweptTo(gates, i)
    ensures Retired(r, b)
    decreases i
  {
    var before := SweptTo(gates, i - 1);
    assert r == Bypassed(before, i - 1);
    if b == i - 1 {
      BypassRetires(before, r, b);
    } else {
      SweepRetires(gates, before, i - 1, b);
      BypassKeepsRetired(before, r, i - 1, b);
    }
  }

  /** After optimisation the only buffers read by other gates are those that feed on themselves. */
  lemma {:induction false} OptimizationRetires(gates: seq<Gate>, left: nat, b: nat)
    requires left > 0 && b < |gates|
    ensures Retired(Optimized(gates, left), b)
    decreases left
  {
    var swept := SweptTo(gates, |gates|);
    SweepRetires(gates, swept, |gates|, b);
    if ChangesBelow(gates, |gates|) && left > 1 {
      OptimizationRetires(swept, left - 1, b);
    }
  }

  lemma {:induction false} OptimizationKeepsRanks(gates: seq<Gate>, rank: int -> int, left: nat)
    requires Ranked(gates, rank)
    ensures Ranked(Optimized(gates, left), rank)
    decreases left
  {
    if left > 0 {
      var swept := SweptTo(gates, |gates|);
      SweepKeepsRanks(gates, swept, rank, |gates|);
      OptimizationKeepsRanks(swept, rank, left - 1);
    }
  }

  /** On a netlist without cycles none arises, and no gate reads a driven buffer any more. */
  lemma AcyclicReadsNoBuffer(gates: seq<Gate>, rank: int -> int, left: nat, j: nat, b: int)
    requires Ranked(gates, rank) && left > 0 && j < |gates|
    ensures Ranked(Optimized(gates, left), rank)
    ensures DrivenBuffer(Optimized(gates, left), b) ==> !Reads(Optimized(gates, left)[j], b)
  {
    OptimizationKeepsRanks(gates, rank, left);
    var r := Optimized(gates, left);
    if DrivenBuffer(r, b) {
      OptimizationRetires(gates, left, b);
      assert rank(r[b].inputs[0]) < rank(b);
      assert forall k :: 0 <= k < |r[b].inputs| ==> r[b].inputs[k] != b;
    }
  }

  // ---------------------------------------------------------------- double inverters that are left

  ghost predicate Unread(gates: seq<Gate>, b: int) {
    forall j :: 0 <= j < |gates| ==> !Reads(gates[j], b)
  }

  /** No cycle, and no driven buffer is read, as it is after any sweep. */
  ghost predicate Tidy(gates: seq<Gate>, rank: int -> int) {
    Ranked(gates, rank) && forall b :: DrivenBuffer(gates, b) ==> Unread(gates, b)
  }

  ghost predicate NoDoubleRead(gates: seq<Gate>, b: int) {
    DoubleInverter(gates, b) ==> Unread(gates, b)
  }

  lemma {:induction false} SweepTidies(gates: seq<Gate>, r: seq<Gate>, rank: int -> int)
    requires Ranked(gates, rank) && r == SweptTo(gates, |gates|)
    ensures Tidy(r, rank)
  {
    SweepKeepsRanks(gates, r, rank, |gates|);
    forall b | DrivenBuffer(r, b) ensures Unread(r, b) {
      SweepRetires(gates, r, |gates|, b);
      assert rank(r[b].inputs[0]) < rank(b);
      assert forall k :: 0 <= k < |r[b].inputs| ==> r[b].inputs[k] != b;
    }
  }

  /** Visiting a gate makes no gate read what none read before. */
  lemma {:induction false} BypassKeepsUnread(gates: seq<Gate>, r: seq<Gate>, i: nat, b: int)
    requires r == Bypassed(gates, i) && Unread(gates, b)
    ensures Unread(r, b)
  {
    if DrivenBuffer(gates, i) || DoubleInverter(gates, i) {
      assert Repeats(gates, i) != b by {
        assert !Reads(gates[i], b) && (DrivenBuffer(gates, i) || !Reads(gates[gates[i].inputs[0]], b));
      }
      forall j | 0 <= j < |r| ensures !Reads(r[j], b) {
        assert !Reads(gates[j], b);
      }
    }
  }

  lemma {:induction false} BypassKeepsTidy(gates: seq<Gate>, r: seq<Gate>, rank: int -> int, i: nat)
    requires r == Bypassed(gates, i) && Tidy(gates, rank)
    ensures Tidy(r, rank)
  {
    BypassKeepsRanks(gates, r, rank, i);
    forall b | DrivenBuffer(r, b) ensures Unread(r, b) {
      assert DrivenBuffer(gates, b);
      BypassKeepsUnread(gates, r, i, b);
    }
  }

  /** A gate just visited is no double inverter, or one that no gate reads. */
  lemma {:induction false} BypassUndoubles(gates: seq<Gate>, r: seq<Gate>, rank: int -> int, i: nat)
    requires r == Bypassed(gates, i) && Ranked(gates, rank)
    ensures NoDoubleRead(r, i)
  {
    if DoubleInverter(gates, i) {
      RepeatsRanksBelow(gates, rank, i);
    }
  }

  /** It stays so: an inverter never gets a driven inverter as its first input while no driven buffer is read. */
  lemma {:induction false} BypassKeepsUndoubled(gates: seq<Gate>, r: seq<Gate>, rank: int -> int, i: nat, b: int)
    requires r == Bypassed(gates, i) && Tidy(gates, rank) && NoDoubleRead(gates, b)
    ensures NoDoubleRead(r, b)
  {
    if DoubleInverter(gates, b) {
      BypassKeepsUnread(gates, r, i, b);
    } else if DoubleInverter(r, b) {
      assert gates[b].kind == Inv && gates[b].inputs != [] && gates[b].inputs[0] == i;
      assert Reads(gates[b], i);
    }
  }

  lemma {:induction false} SweepUndoubles(gates: seq<Gate>, r: seq<Gate>, rank: int -> int, i: nat)
    requires i <= |gates| && r == SweptTo(gates, i) && Tidy(gates, rank)
    ensures Tidy(r, rank) && forall b :: 0 <= b < i ==> NoDoubleRead(r, b)
    decreases i
  {
    if i > 0 {
      var before := SweptTo(gates, i - 1);
      SweepUndoubles(gates, before, rank, i - 1);
      BypassKeepsTidy(before, r, rank, i - 1);
      forall b | 0 <= b < i ensures NoDoubleRead(r, b) {
        if b == i - 1 {
          BypassUndoubles(before, r, rank, b);
        } else {
          BypassKeepsUndoubled(before, r, rank, i - 1, b);
        }
      }
    }
  }

  /** A sweep that counts no change leaves the gates as they are. */
  lemma {:induction false} SweepUnchanged(gates: seq<Gate>, i: nat)
    requires !ChangesBelow(gates, i)
    ensures SweptTo(gates, i) == gates && forall k: nat :: k < i ==> !ChangesAt(gates, k)
  {
    if i > 0 {
      SweepUnchanged(gates, i - 1);
      if DrivenBuffer(gates, i - 1) {
        forall j | 0 <= j < |gates| ensures Bypassed(gates, i - 1)[j] == gates[j] {
          assert j != i - 1 ==> !Reads(gates[j], i - 1);
        }
      }
    }
  }

  lemma {:induction false} TidyReadsNoDouble(gates: seq<Gate>, rank: int -> int, left: nat, b: int)
    requires Tidy(gates, rank) && left > 0
    ensures NoDoubleRead(Optimized(gates, left), b)
    decreases left
  {
    var swept := SweptTo(gates, |gates|);
    SweepUndoubles(gates, swept, rank, |gates|);
    if ChangesBelow(gates, |gates|) && left > 1 {
      TidyReadsNoDouble(swept, rank, left - 1, b);
    }
  }

  /** On a netlist without cycles two sweeps are enough for no gate to read a double inverter any more. */
  lemma {:induction false} AcyclicReadsNoDouble(gates: seq<Gate>, rank: int -> int, left: nat, j: nat, b: int)
    requires Ranked(gates, rank) && left > 1 && j < |gates|
    ensures DoubleInverter(Optimized(gates, left), b) ==> !Reads(Optimized(gates, left)[j], b)
  {
    var swept := SweptTo(gates, |gates|);
    if ChangesBelow(gates, |gates|) {
      SweepTidies(gates, swept, rank);
      TidyReadsNoDouble(swept, rank, left - 1, b);
      assert NoDoubleRead(Optimized(gates, left), b);
    } else {
      SweepUnchanged(gates, |gates|);
      assert 0 <= b < |gates| ==> !ChangesAt(gates, b);
    }
  }

  // ---------------------------------------------------------------- what a whole optimisation gives

  ghost predicate Acyclic(gates: seq<Gate>) {
    exists rank: int -> int :: Ranked(gates, rank)
  }

  /** Gate `j` reads gate `b`, and that gate has inputs. */
  predicate ReadsDriven(gates: seq<Gate>, j: int, b: int) {
    0 <= j < |gates| && 0 <= b < |gates| && b in gates[j].inputs && gates[b].inputs != []
  }

  /** No gate reads a buffer that has inputs, or an inverter whose first input is an inverter that has some. */
  ghost predicate ReadsNoRepeater(gates: seq<Gate>) {
    forall j, b :: ReadsDriven(gates, j, b) ==>
      var d := gates[b].inputs[0];
      && gates[b].kind != Buf
      && !(gates[b].kind == Inv && 0 <= d < |gates| && gates[d].kind == Inv && gates[d].inputs != [])
  }

  /** The only buffers with inputs that other gates read are those whose first input is themselves. */
  ghost predicate ReadsOwnBuffersOnly(gates: seq<Gate>) {
    forall j, b :: ReadsDriven(gates, j, b) && j != b && gates[b].kind == Buf ==> gates[b].inputs[0] == b
  }

  lemma {:induction false} OptimizedIsClean(gates: seq<Gate>, r: seq<Gate>, left: nat)
    requires r == Optimized(gates, left) && left > 1
    ensures |r| == |gates| && ReadsOwnBuffersOnly(r)
    ensures Acyclic(gates) ==> Acyclic(r) && ReadsNoRepeater(r)
  {
    forall j: nat, b: nat | ReadsDriven(r, j, b) && j != b && r[b].kind == Buf ensures r[b].inputs[0] == b {
      OptimizationRetires(gates, left, b);
      assert Reads(r[j], b);
    }
    if Acyclic(gates) {
      var rank: int -> int :| Ranked(gates, rank);
      OptimizationKeepsRanks(gates, rank, left);
      forall j, b | ReadsDriven(r, j, b) ensures !DrivenBuffer(r, b) && !DoubleInverter(r, b) {
        CleanAt(gates, r, rank, left, j, b);
      }
    }
  }

  lemma {:induction false} CleanAt(gates: seq<Gate>, r: seq<Gate>, rank: int -> int, left: nat, j: nat, b: nat)
    requires r == Optimized(gates, left) && left > 1 && Ranked(gates, rank) && ReadsDriven(r, j, b)
    ensures !DrivenBuffer(r, b) && !DoubleInverter(r, b)
  {
    AcyclicReadsNoBuffer(gates, rank, left, j, b);
    AcyclicReadsNoDouble(gates, rank, left, j, b);
    assert Reads(r[j], b);
  }

  lemma {:induction false} SameMeaning(gates: seq<Gate>, r: seq<Gate>, left: nat)
    requires r == Optimized(gates, left)
    ensures forall lib, val, next {:trigger Satisfies(lib, r, val, next)} ::
              Satisfies(lib, gates, val, next) <==> Satisfies(lib, r, val, next)
  {
    forall lib, val, next ensures Satisfies(lib, gates, val, next) <==> Satisfies(lib, r, val, next) {
      OptimizationKeepsMeaning(lib, gates, val, next, left);
    }
  }

  // ---------------------------------------------------------------- the code

  class Circuit {
    var gates: seq<Gate>

    constructor ()
      ensures gates == []
    {
      gates := [];
    }

    method AddGate(kind: GateType)
      modifies this
      ensures gates == old(gates) + [Gate(kind, [], [])]
    {
      gates := gates + [Gate(kind, [], [])];
    }

    /**
     Joins output port `srcPort` of `src` to input port `dstPort` of `dst`; a gate identifier past the end is refused.
     A port beyond the next free one leaves the slots below it with any value.
     */
    method Connect(src: nat, srcPort: nat, dst: nat, dstPort: nat) returns (ok: bool)
      modifies this
      ensures ok <==> src < |old(gates)| && dst < |old(gates)|
      ensures !ok ==> gates == old(gates)
      ensures ok ==> Connected(old(gates), gates, src, srcPort, dst, dstPort)
    {
      if src >= |gates| || dst >= |gates| {
        return false;
      }
      var outputs := SetPort(gates[src].outputs, srcPort, dst);
      gates := gates[src := gates[src].(outputs := outputs)];
      var inputs := SetPort(gates[dst].inputs, dstPort, src);
      gates := gates[dst := gates[dst].(inputs := inputs)];
      return true;
    }

    /** Grows the list up to the port, without setting what is new, and sets the port. */
    method SetPort(ports: seq<int>, port: nat, x: int) returns (r: seq<int>)
      ensures PortSet(ports, r, port, x)
    {
      r := ports;
      while |r| <= port
        invariant |ports| <= |r| && (port < |ports| ==> r == ports) && (port >= |ports| ==> |r| <= port + 1)
        invariant r[..|ports|] == ports
      {
        var left: int := *;
        r := r + [left];
      }
      ghost var grown := r;
      r := r[port := x];
      assert forall k :: 0 <= k < |ports| ==> grown[..|ports|][k] == grown[k];
    }

    /** Moves every reader of the driven buffer `i` to the buffer's input. */
    method BypassBuffer(i: nat) returns (changed: bool)
      requires DrivenBuffer(gates, i)
      modifies this
      ensures gates == Redirected(old(gates), i, Repeats(old(gates), i), i)
      ensures changed <==> exists j :: 0 <= j < |old(gates)| && j != i && Reads(old(gates)[j], i)
    {
      ghost var before := gates;
      ghost var after := Redirected(before, i, Repeats(before, i), i);
      changed := false;
      var j := 0;
      while j < |gates|
        invariant 0 <= j <= |gates| == |before| && gates[i] == before[i]
        invariant forall h :: 0 <= h < |gates| ==> gates[h] == if h < j then after[h] else before[h]
        invariant changed <==> exists h :: 0 <= h < j && h != i && Reads(before[h], i)
      {
        if j != i {
          var hit := MoveReads(j, i, gates[i].inputs[0]);
          changed := changed || hit;
        }
        j := j + 1;
      }
    }

    /** Replaces `i` by `t` among the inputs of gate `j`. */
    method MoveReads(j: nat, i: int, t: int) returns (hit: bool)
      requires j < |gates|
      modifies this
      ensures gates == old(gates)[j := old(gates)[j].(inputs := Moved(old(gates)[j].inputs, i, t))]
      ensures hit <==> Reads(old(gates)[j], i)
    {
      ghost var before := gates;
      ghost var ins := gates[j].inputs;
      hit := false;
      var k := 0;
      while k < |gates[j].inputs|
        invariant |gates| == |before| && 0 <= k <= |gates[j].inputs| == |ins|
        invariant gates == before[j := before[j].(inputs := gates[j].inputs)]
        invariant forall m :: 0 <= m < |ins| ==> gates[j].inputs[m] == if m < k && ins[m] == i then t else ins[m]
        invariant hit <==> exists m :: 0 <= m < k && ins[m] == i
      {
        if gates[j].inputs[k] == i {
          gates := gates[j := gates[j].(inputs := gates[j].inputs[k := t])];
          hit := true;
        }
        k := k + 1;
      }
      assert gates[j].inputs == Moved(ins, i, t);
    }

    /** Moves every reader of gate `i` to `src`. */
    method BypassInverters(i: nat, src: int)
      modifies this
      ensures gates == Redirected(old(gates), i, src, -1)
    {
      ghost var before := gates;
      ghost var after := Redirected(before, i, src, -1);
      var j := 0;
      while j < |gates|
        invariant 0 <= j <= |gates| == |before|
        invariant forall h :: 0 <= h < |gates| ==> gates[h] == if h < j then after[h] else before[h]
      {
        var _ := MoveReads(j, i, src);
        j := j + 1;
      }
    }

    /** Visits gate `i`. */
    method Visit(i: nat) returns (changed: bool)
      requires i < |gates|
      modifies this
      ensures gates == Bypassed(old(gates), i)
      ensures changed <==> ChangesAt(old(gates), i)
    {
      changed := false;
      if gates[i].kind == Buf {
        if |gates[i].inputs| > 0 {
          changed := BypassBuffer(i);
        }
        return;
      }
      if gates[i].kind == Inv && |gates[i].inputs| > 0 {
        var drv := gates[i].inputs[0];
        if 0 <= drv < |gates| && gates[drv].kind == Inv && |gates[drv].inputs| > 0 {
          BypassInverters(i, gates[drv].inputs[0]);
          changed := true;
        }
      }
    }

    method Sweep() returns (changed: bool)
      modifies this
      ensures gates == SweptTo(old(gates), |old(gates)|)
      ensures changed <==> ChangesBelow(old(gates), |old(gates)|)
    {
      ghost var before, now := gates, gates;
      changed := false;
      var i := 0;
      while i < |gates|
        invariant 0 <= i <= |gates| == |before| && gates == now
        invariant now == SweptTo(before, i)
        invariant changed <==> ChangesBelow(before, i)
      {
        now := SweepNext(before, i, now);
        var hit := Visit(i);
        changed := changed || hit;
        i := i + 1;
      }
    }

    /** Sweeps until one changes nothing, ten times at most. */
    method RunBooleanOptimize() returns (ok: bool)
      modifies this
      ensures ok && gates == Optimized(old(gates), 10)
      ensures forall lib, val, next {:trigger Satisfies(lib, gates, val, next)} ::
                Satisfies(lib, old(gates), val, next) <==> Satisfies(lib, gates, val, next)
      ensures |gates| == |old(gates)| && ReadsOwnBuffersOnly(gates)
      ensures Acyclic(old(gates)) ==> Acyclic(gates) && ReadsNoRepeater(gates)
    {
      var changed := true;
      var iter: nat := 0;
      while changed && iter < MAX_SWEEPS
        invariant iter <= MAX_SWEEPS
        invariant Optimized(old(gates), MAX_SWEEPS) ==
          if changed then Optimized(gates, MAX_SWEEPS - iter) else gates
        decreases MAX_SWEEPS - iter
      {
        changed := Sweep();
        iter := iter + 1;
      }
      OptimizedIsClean(old(gates), gates, MAX_SWEEPS);
      SameMeaning(old(gates), gates, MAX_SWEEPS);
      return true;
    }
  }

  /** Port `port` holds `x`, the other ports hold what they held, and the list reaches as far as the port. */
  ghost predicate PortSet(before: seq<int>, after: seq<int>, port: nat, x: int) {
    && |after| == (if port < |before| then |before| else port + 1) && after[port] == x
    && forall k :: 0 <= k < |before| && k != port ==> after[k] == before[k]
  }

  ghost predicate Connected(before: seq<Gate>, after: seq<Gate>, src: nat, srcPort: nat, dst: nat, dstPort: nat) {
    && |after| == |before|
    && forall j :: 0 <= j < |after| ==>
         && after[j].kind == before[j].kind
         && (if j == src then PortSet(before[j].outputs, after[j].outputs, srcPort, dst)
             else after[j].outputs == before[j].outputs)
         && (if j == dst then PortSet(before[j].inputs, after[j].inputs, dstPort, src)
             else after[j].inputs == before[j].inputs)
  }
}
