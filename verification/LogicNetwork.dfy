/**
 Rewriting a gate network in place: a second inverter in a row becomes a buffer of the
 first one's input, and one-input AND and OR gates become buffers.
 */
module LogicNetwork {

  const MAX_GATES := 256

  datatype GateType = And | Or | Not | Nand | Nor | Xor | Xnor | Buf | Mux

  /** `inputs` holds the wires stored for the gate, at most four, whatever `inputCount` says. */
  datatype Gate = Gate(kind: GateType, inputs: seq<int>, inputCount: int, output: int)

  function Stored(count: int): (s: nat)
    ensures s <= 4 && (s < count ==> s == 4) && (s > 0 ==> s <= count)
  {
    if count < 0 then 0 else if count < 4 then count else 4
  }

  // ---------------------------------------------------------------- meaning

  predicate All(bits: seq<bool>) {
    bits == [] || (bits[0] && All(bits[1..]))
  }

  predicate Any(bits: seq<bool>) {
    bits != [] && (bits[0] || Any(bits[1..]))
  }

  predicate Odd(bits: seq<bool>) {
    bits != [] && bits[0] != Odd(bits[1..])
  }

  /** The value a gate drives; a missing input reads as false. */
  predicate Value(kind: GateType, bits: seq<bool>) {
    match kind
    case And => All(bits)
    case Or => Any(bits)
    case Not => !(bits != [] && bits[0])
    case Nand => !All(bits)
    case Nor => !Any(bits)
    case Xor => Odd(bits)
    case Xnor => !Odd(bits)
    case Buf => bits != [] && bits[0]
    case Mux => |bits| >= 3 && if bits[0] then bits[2] else bits[1]
  }

  function Reads(g: Gate, wires: int -> bool): seq<bool> {
    seq(|g.inputs|, k requires 0 <= k < |g.inputs| => wires(g.inputs[k]))
  }

  ghost predicate Agrees(g: Gate, wires: int -> bool) {
    wires(g.output) == Value(g.kind, Reads(g, wires))
  }

  /** The valuation gives every gate's output wire the value the gate drives. */
  ghost predicate Consistent(gates: seq<Gate>, wires: int -> bool) {
    forall i :: 0 <= i < |gates| ==> Agrees(gates[i], wires)
  }

  /** Both networks allow the same wire valuations. */
  ghost predicate SameMeaning(a: seq<Gate>, b: seq<Gate>) {
    forall wires :: Consistent(a, wires) <==> Consistent(b, wires)
  }

  // ---------------------------------------------------------------- the rewriting steps

  predicate Inverter(g: Gate) {
    g.kind == Not && g.inputCount == 1
  }

  ghost predicate Formed(gates: seq<Gate>) {
    forall i :: 0 <= i < |gates| ==> |gates[i].inputs| == Stored(gates[i].inputCount)
  }

  /** Gate `j` inverts what inverter `i` drives. */
  predicate Doubled(gates: seq<Gate>, i: nat, j: nat)
    requires Formed(gates)
  {
    i < |gates| && j < |gates| && Inverter(gates[i]) && Inverter(gates[j]) && gates[j].inputs[0] == gates[i].output
  }

  predicate Lone(g: Gate) {
    (g.kind == And || g.kind == Or) && g.inputCount == 1
  }

  function Bypassed(gates: seq<Gate>, i: nat, j: nat): (r: seq<Gate>)
    requires Formed(gates) && Doubled(gates, i, j)
    ensures |r| == |gates|
  {
    gates[j := gates[j].(kind := Buf, inputs := [gates[i].inputs[0]])]
  }

  lemma OneStored(g: Gate, wires: int -> bool)
    requires |g.inputs| == 1
    ensures Reads(g, wires) == [wires(g.inputs[0])]
  {
  }

  lemma BypassKeepsMeaning(gates: seq<Gate>, i: nat, j: nat)
    requires Formed(gates) && Doubled(gates, i, j) && i < j
    ensures SameMeaning(gates, Bypassed(gates, i, j))
  {
    var after := Bypassed(gates, i, j);
    forall wires ensures Consistent(gates, wires) <==> Consistent(after, wires) {
      OneStored(gates[i], wires);
      OneStored(gates[j], wires);
      OneStored(after[j], wires);
      if Consistent(gates, wires) || Consistent(after, wires) {
        assert after[i] == gates[i] && Agrees(gates[i], wires);
        assert Agrees(gates[j], wires) <==> Agrees(after[j], wires);
        assert forall k :: 0 <= k < |gates| && k != j ==> after[k] == gates[k];
      }
    }
  }

  lemma LoneKeepsMeaning(gates: seq<Gate>, i: nat)
    requires Formed(gates) && i < |gates| && Lone(gates[i])
    ensures SameMeaning(gates, gates[i := gates[i].(kind := Buf)])
  {
    var after := gates[i := gates[i].(kind := Buf)];
    forall wires ensures Consistent(gates, wires) <==> Consistent(after, wires) {
      OneStored(gates[i], wires);
      OneStored(after[i], wires);
      var bit := [wires(gates[i].inputs[0])];
      assert All(bit) == Any(bit) == bit[0] by { assert bit[1..] == []; }
      assert Agrees(gates[i], wires) <==> Agrees(after[i], wires);
      assert forall k :: 0 <= k < |gates| && k != i ==> after[k] == gates[k];
    }
  }

  lemma {:induction false} MeaningChains(a: seq<Gate>, b: seq<Gate>, c: seq<Gate>)
    requires SameMeaning(a, b) && SameMeaning(b, c)
    ensures SameMeaning(a, c)
  {
    forall wires ensures Consistent(a, wires) <==> Consistent(c, wires) {
      assert Consistent(a, wires) <==> Consistent(b, wires);
    }
  }

  /** No gate from `from` on inverts what inverter `i` drives. */
  ghost predicate ClearBehind(gates: seq<Gate>, i: nat, upTo: nat)
    requires Formed(gates)
  {
    forall j: nat {:trigger Doubled(gates, i, j)} :: i < j < upTo ==> !Doubled(gates, i, j)
  }

  /** The first `upTo` gates are fully treated. */
  ghost predicate Treated(gates: seq<Gate>, upTo: nat)
    requires Formed(gates)
  {
    && (forall i: nat :: i < upTo ==> ClearBehind(gates, i, |gates|))
    && (forall i :: 0 <= i < upTo && i < |gates| ==> !Lone(gates[i]))
  }

  /** Turning a gate into a buffer gives no inverter a new inverter to follow. */
  lemma BufferKeepsTreated(gates: seq<Gate>, j: nat, g: Gate, upTo: nat)
    requires Formed(gates) && j < |gates| && Treated(gates, upTo)
    requires g.kind == Buf && |g.inputs| == Stored(g.inputCount)
    ensures Formed(gates[j := g]) && Treated(gates[j := g], upTo)
  {
    var after := gates[j := g];
    forall i: nat | i < upTo ensures ClearBehind(after, i, |after|) {
      assert ClearBehind(gates, i, |gates|);
      forall k: nat | i < k < |after| ensures !Doubled(after, i, k) {
        assert Doubled(after, i, k) ==> Doubled(gates, i, k);
      }
    }
  }

  lemma BufferKeepsClear(gates: seq<Gate>, j: nat, g: Gate, i: nat, upTo: nat)
    requires Formed(gates) && j < |gates| && ClearBehind(gates, i, upTo)
    requires g.kind == Buf && |g.inputs| == Stored(g.inputCount)
    ensures Formed(gates[j := g]) && ClearBehind(gates[j := g], i, upTo)
  {
    var after := gates[j := g];
    forall k: nat | i < k < upTo ensures !Doubled(after, i, k) {
      assert Doubled(after, i, k) ==> Doubled(gates, i, k);
    }
  }

  // ---------------------------------------------------------------- which gates are rewritten, and to what

  /** Inverter `i` stands before inverter `k`, which reads it, and is still an inverter in `now`. */
  ghost predicate Feeds(was: seq<Gate>, now: seq<Gate>, i: nat, k: nat)
    requires Formed(was) && |now| == |was|
  {
    && i < k < |was| && was[i].kind == was[k].kind == now[i].kind == Not
    && was[i].inputCount == 1 == was[k].inputCount && was[k].inputs[0] == was[i].output
  }

  /** No inverter before `upTo` feeds gate `k`. */
  ghost predicate Unfed(was: seq<Gate>, now: seq<Gate>, k: nat, upTo: nat)
    requires Formed(was) && |now| == |was|
  {
    forall i: nat :: i < upTo ==> !Feeds(was, now, i, k)
  }

  /** No inverter before `upTo` feeds gate `k`, and it is as it was; or the first that does is bypassed. */
  ghost predicate InverterAfter(was: seq<Gate>, now: seq<Gate>, k: nat, upTo: nat)
    requires Formed(was) && |now| == |was| && k < |was| && Inverter(was[k])
  {
    || (now[k] == was[k] && Unfed(was, now, k, upTo))
    || exists i: nat :: i < upTo && Feeds(was, now, i, k) && Unfed(was, now, k, i)
                        && now[k] == Gate(Buf, [was[i].inputs[0]], was[k].inputCount, was[k].output)
  }

  /** Gate `k` once the first `upTo` gates have been treated. */
  ghost predicate GateAfter(was: seq<Gate>, now: seq<Gate>, k: nat, upTo: nat)
    requires Formed(was) && |now| == |was| && k < |was|
  {
    if was[k].kind == Not && was[k].inputCount == 1 then InverterAfter(was, now, k, upTo)
    else if (was[k].kind == And || was[k].kind == Or) && was[k].inputCount == 1 && k < upTo then
      now[k] == Gate(Buf, was[k].inputs, was[k].inputCount, was[k].output)
    else now[k] == was[k]
  }

  /** Inverters that follow a remaining inverter, and lone AND and OR gates, are buffers; nothing else has changed. */
  ghost predicate RewrittenTo(was: seq<Gate>, now: seq<Gate>, upTo: nat)
    requires Formed(was)
  {
    |now| == |was| && forall k: nat :: k < |was| ==> GateAfter(was, now, k, upTo)
  }

  /** `after` is `before` with every inverter behind inverter `i` that reads it bypassed, up to `upTo`. */
  ghost predicate BypassedBehind(before: seq<Gate>, after: seq<Gate>, i: nat, upTo: nat)
    requires Formed(before) && i < |before|
  {
    && |after| == |before|
    && forall k: nat :: k < |before| ==>
         after[k] == if i < k < upTo && Doubled(before, i, k)
                     then Gate(Buf, [before[i].inputs[0]], before[k].inputCount, before[k].output) else before[k]
  }

  /** Treating gate `i` takes each gate one step further. */
  lemma {:induction false} TreatedNext(was: seq<Gate>, before: seq<Gate>, mid: seq<Gate>, after: seq<Gate>, i: nat)
    requires Formed(was) && Formed(before) && RewrittenTo(was, before, i) && i < |was|
    requires if Inverter(before[i]) then BypassedBehind(before, mid, i, |was|) else mid == before
    requires after == if Lone(mid[i]) then mid[i := mid[i].(kind := Buf)] else mid
    ensures RewrittenTo(was, after, i + 1)
  {
    var next: nat := i + 1;
    forall k: nat | k < |was| ensures GateAfter(was, after, k, next) {
      assert GateAfter(was, before, k, i) && GateAfter(was, before, i, i);
      if Inverter(was[k]) {
        InverterNext(was, before, after, i, k);
      }
    }
  }

  lemma {:induction false} InverterNext(was: seq<Gate>, before: seq<Gate>, after: seq<Gate>, i: nat, k: nat)
    requires Formed(was) && Formed(before) && |before| == |was| == |after| && i < |was| && k < |was|
    requires Inverter(was[k]) && InverterAfter(was, before, k, i) && GateAfter(was, before, i, i)
    requires after[..i] == before[..i] && (before[i].kind == Not <==> after[i].kind == Not)
    requires after[k] == if i < k && Inverter(before[i]) && Doubled(before, i, k)
                         then Gate(Buf, [before[i].inputs[0]], before[k].inputCount, before[k].output) else before[k]
    ensures InverterAfter(was, after, k, i + 1)
  {
    forall h: nat | h < i ensures Feeds(was, after, h, k) <==> Feeds(was, before, h, k) {
      assert after[..i][h] == before[..i][h];
    }
  }

  // ---------------------------------------------------------------- the code

  class Network {
    var gates: seq<Gate>
    var wireCount: int

    constructor ()
      ensures gates == [] && wireCount == 0
    {
      gates, wireCount := [], 0;
    }

    method AddGate(kind: GateType, inputs: seq<int>, inputCount: int) returns (id: int)
      requires |inputs| >= Stored(inputCount) && Formed(gates)
      modifies this
      ensures Formed(gates)
      ensures |old(gates)| >= MAX_GATES ==> id == -1 && gates == old(gates) && wireCount == old(wireCount)
      ensures |old(gates)| < MAX_GATES ==>
                && id == |old(gates)| && wireCount == old(wireCount) + 1
                && gates == old(gates) + [Gate(kind, inputs[..Stored(inputCount)], inputCount, old(wireCount))]
    {
      if |gates| >= MAX_GATES {
        return -1;
      }
      id := |gates|;
      gates := gates + [Gate(kind, inputs[..Stored(inputCount)], inputCount, wireCount)];
      wireCount := wireCount + 1;
    }

    /** Rewrites the inverters behind inverter `i` that read it. */
    method BypassBehind(i: nat)
      requires Formed(gates) && i < |gates| && Inverter(gates[i]) && Treated(gates, i)
      modifies this`gates
      ensures Formed(gates) && |gates| == |old(gates)| && gates[i] == old(gates)[i] && Treated(gates, i)
      ensures SameMeaning(old(gates), gates) && ClearBehind(gates, i, |gates|)
      ensures BypassedBehind(old(gates), gates, i, |gates|)
    {
      var j := i + 1;
      while j < |gates|
        invariant i < j <= |gates| == |old(gates)| && Formed(gates) && gates[i] == old(gates)[i] && Treated(gates, i)
        invariant SameMeaning(old(gates), gates) && ClearBehind(gates, i, j)
        invariant BypassedBehind(old(gates), gates, i, j)
      {
        if Inverter(gates[j]) && gates[j].inputs[0] == gates[i].output {
          ghost var before := gates;
          assert Doubled(gates, i, j);
          BypassKeepsMeaning(gates, i, j);
          BufferKeepsTreated(gates, j, Bypassed(gates, i, j)[j], i);
          BufferKeepsClear(gates, j, Bypassed(gates, i, j)[j], i, j);
          gates := gates[j := gates[j].(kind := Buf, inputs := [gates[i].inputs[0]])];
          MeaningChains(old(gates), before, gates);
        }
        assert !Doubled(gates, i, j);
        j := j + 1;
      }
    }

    /** Treats gate `i`, those before it being treated. */
    method TreatGate(i: nat, ghost was: seq<Gate>)
      requires Formed(gates) && i < |gates| && Treated(gates, i) && Formed(was) && RewrittenTo(was, gates, i)
      modifies this`gates
      ensures Formed(gates) && SameMeaning(old(gates), gates)
      ensures Treated(gates, i + 1) && RewrittenTo(was, gates, i + 1)
    {
      if Inverter(gates[i]) {
        BypassBehind(i);
      }
      assert ClearBehind(gates, i, |gates|);
      ghost var mid := gates;
      if Lone(gates[i]) {
        LoneKeepsMeaning(gates, i);
        BufferKeepsTreated(gates, i, gates[i].(kind := Buf), i);
        BufferKeepsClear(gates, i, gates[i].(kind := Buf), i, |gates|);
        gates := gates[i := gates[i].(kind := Buf)];
        MeaningChains(old(gates), mid, gates);
      }
      TreatedNext(was, old(gates), mid, gates, i);
    }

    /** The whole rewriting: the meaning is kept, nothing it looks for is left, and nothing else is touched. */
    method Optimize()
      requires Formed(gates)
      modifies this`gates
      ensures Formed(gates) && |gates| == |old(gates)|
      ensures SameMeaning(old(gates), gates)
      ensures Treated(gates, |gates|) && RewrittenTo(old(gates), gates, |gates|)
    {
      var i := 0;
      while i < |gates|
        invariant 0 <= i <= |gates| == |old(gates)| && Formed(gates)
        invariant SameMeaning(old(gates), gates) && Treated(gates, i) && RewrittenTo(old(gates), gates, i)
      {
        ghost var before := gates;
        TreatGate(i, old(gates));
        MeaningChains(old(gates), before, gates);
        i := i + 1;
      }
    }
  }
}
