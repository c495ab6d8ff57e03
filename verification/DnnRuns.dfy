/**
 Runs of programs with branches, told by the positions they visit: those that follow from the
 branch flags and targets of the instructions alone.
 */
module DnnRuns {
  import opened DnnIsa

  // ---------------------------------------------------------------- one step

  /** Where the instruction at `k` leads, in either direction. */
  ghost predicate Leads(prog: seq<Instr>, k: nat, next: nat) {
    k < |prog| && (prog[k].branch ==> next == prog[k].target) && (!prog[k].branch ==> next == k + 1)
  }

  /** What one instruction does to a running machine: an instruction the table does not list takes one cycle. */
  lemma {:induction false} StepMoves(prog: seq<Instr>, s: State, r: State)
    requires s.running && !s.halted && s.pc < |prog| && r == Step(prog, s)
    ensures Leads(prog, s.pc, r.pc) && r.ops == s.ops + 1
    ensures r.halted == (prog[s.pc].op == Halt) && r.running == !r.halted
    ensures FindMeta(prog[s.pc].op).Some? ==>
              (r.cycle - s.cycle - FindMeta(prog[s.pc].op).value.latency) % WORD == 0
    ensures FindMeta(prog[s.pc].op).None? ==> (r.cycle - s.cycle - 1) % WORD == 0
    ensures r.cycle < WORD
    ensures (r.branches - s.branches - (if prog[s.pc].branch then 1 else 0)) % WORD == 0
    ensures r.stalls == if r.pc >= |prog| && !r.halted then (s.stalls + 1) % WORD else s.stalls
  {
    Wraps(s.cycle + Latency(prog[s.pc].op));
    Wraps(s.branches + 1);
  }

  lemma Wraps(x: nat)
    ensures (x % WORD - x) % WORD == 0
  {
    var q := x / WORD;
    assert x % WORD - x == WORD * -q;
    MultipleWraps(-q);
  }

  lemma MultipleWraps(q: int)
    ensures (WORD * q) % WORD == 0
  {
  }

  // ---------------------------------------------------------------- paths

  /** A path from the first instruction, each position following from the one before; HALT may only be at its end. */
  ghost predicate Path(prog: seq<Instr>, p: seq<nat>) {
    p != [] && p[0] == 0 && forall i: nat :: i + 1 < |p| ==> Passes(prog, p, i)
  }

  ghost predicate Passes(prog: seq<Instr>, p: seq<nat>, i: nat)
    requires i + 1 < |p|
  {
    Leads(prog, p[i], p[i + 1]) && prog[p[i]].op != Halt
  }

  /** Cycles of the instructions at these positions. */
  function Cycles(prog: seq<Instr>, p: seq<nat>): nat {
    if p == [] then 0 else (if p[0] < |prog| then prog[p[0]].latency else 0) + Cycles(prog, p[1..])
  }

  /** How many of them branch. */
  function Jumps(prog: seq<Instr>, p: seq<nat>): nat {
    if p == [] then 0 else (if p[0] < |prog| && prog[p[0]].branch then 1 else 0) + Jumps(prog, p[1..])
  }

  lemma {:induction false} OneMore(prog: seq<Instr>, p: seq<nat>, k: nat)
    requires k < |p| && p[k] < |prog|
    ensures Cycles(prog, p[..k + 1]) == Cycles(prog, p[..k]) + prog[p[k]].latency
    ensures Jumps(prog, p[..k + 1]) == Jumps(prog, p[..k]) + (if prog[p[k]].branch then 1 else 0)
    decreases k
  {
    assert p[..k + 1][1..] == p[1..][..k];
    if k > 0 {
      assert p[..k][1..] == p[1..][..k - 1];
      OneMore(prog, p[1..], k - 1);
    } else {
      assert p[..0] == [] && p[1..][..0] == [];
    }
  }

  /** The machine takes the steps of the program with the latencies recorded in it. */
  ghost predicate Ticks(f: State -> State, prog: seq<Instr>) {
    forall x {:trigger f(x)} :: f(x) == Tick(prog, x)
  }

  lemma {:induction false} BuiltTicks(prog: seq<Instr>)
    requires Built(prog)
    ensures Ticks(Machine(prog), prog)
    ensures forall k :: 0 <= k < |prog| && prog[k].op == Halt ==> prog[k].latency == 0
  {
    BuiltIsTimed(prog);
    forall k | 0 <= k < |prog| ensures prog[k].op == Halt ==> prog[k].latency == 0 {
      assert Emitted(prog[k]);
    }
    forall x ensures Machine(prog)(x) == Tick(prog, x) {
      StepIsTick(prog, x);
    }
  }

  /** Along any path, backward branches included, the machine is at each position with what the path has cost so far. */
  lemma {:induction false} PathSteps(prog: seq<Instr>, p: seq<nat>, k: nat, r: State)
    requires Built(prog) && Path(prog, p) && k < |p| && r == Steps(Machine(prog), START, k)
    requires Cycles(prog, p[..k]) < WORD && k < WORD
    ensures r.pc == p[k] && r.running && !r.halted && r.ops == k
    ensures r.cycle == Cycles(prog, p[..k]) && r.branches == Jumps(prog, p[..k])
  {
    BuiltTicks(prog);
    PathTicks(prog, Machine(prog), p, k, r);
  }

  lemma {:induction false} PathTicks(prog: seq<Instr>, f: State -> State, p: seq<nat>, k: nat, r: State)
    requires Ticks(f, prog) && Path(prog, p) && k < |p| && r == Steps(f, START, k)
    requires Cycles(prog, p[..k]) < WORD && k < WORD
    ensures r.pc == p[k] && r.running && !r.halted && r.ops == k
    ensures r.cycle == Cycles(prog, p[..k]) && r.branches == Jumps(prog, p[..k]) <= k
    decreases k
  {
    if k > 0 {
      var s := Steps(f, START, k - 1);
      assert Passes(prog, p, k - 1);
      OneMore(prog, p, k - 1);
      PathTicks(prog, f, p, k - 1, s);
      assert r == f(s) == Tick(prog, s);
    } else {
      assert p[..0] == [];
    }
  }

  // ---------------------------------------------------------------- programs that only branch forward

  ghost predicate Forward(prog: seq<Instr>) {
    forall k :: 0 <= k < |prog| && prog[k].branch ==> prog[k].target > k
  }

  /** The positions such a program visits from `pc` on, up to a HALT or past its end. */
  ghost function Chain(prog: seq<Instr>, pc: nat): seq<nat>
    requires Forward(prog)
    decreases |prog| - pc
  {
    if pc >= |prog| then []
    else if prog[pc].op == Halt then [pc]
    else [pc] + Chain(prog, if prog[pc].branch then prog[pc].target else pc + 1)
  }

  lemma {:induction false} ChainIsShort(prog: seq<Instr>, pc: nat)
    requires Built(prog) && Forward(prog)
    ensures |Chain(prog, pc)| + pc <= |prog| || Chain(prog, pc) == []
    ensures Cycles(prog, Chain(prog, pc)) <= |Chain(prog, pc)| * MAX_LATENCY
    decreases |prog| - pc
  {
    if pc < |prog| {
      assert Emitted(prog[pc]);
      LatencyBound(prog[pc].op);
      if prog[pc].op != Halt {
        var next := if prog[pc].branch then prog[pc].target else pc + 1;
        ChainIsShort(prog, next);
        assert Chain(prog, pc)[1..] == Chain(prog, next);
      } else {
        assert Cycles(prog, [pc]) == prog[pc].latency + Cycles(prog, [pc][1..]);
      }
    }
  }

  lemma {:induction false} RanNext(f: State -> State, s: State, budget: nat, r: State)
    requires RanTo(f, s, budget, r)
    ensures if Going(s, budget) then RanTo(f, f(s), budget, r) else r == s
  {
    var k: nat :| StopsAfter(f, s, budget, k) && r == Steps(f, s, k);
    if Going(s, budget) {
      assert k > 0;
      StepsFromNext(f, s, k - 1);
      forall j: nat | j < k - 1 ensures Going(Steps(f, f(s), j), budget) {
        StepsFromNext(f, s, j);
      }
      assert StopsAfter(f, f(s), budget, k - 1);
    } else {
      assert !Going(Steps(f, s, 0), budget);
    }
  }

  /** The run from `s` to `r` has made the first `k` instructions of the chain, and stopped where it had to. */
  ghost predicate FollowsChain(prog: seq<Instr>, chain: seq<nat>, s: State, budget: nat, r: State, k: nat) {
    && k <= |chain| && r.ops == s.ops + k && r.cycle == s.cycle + Cycles(prog, chain[..k])
    && (r.halted <==> s.cycle + Cycles(prog, chain) < budget)
    && (r.halted ==> k == |chain|)
    && (!r.halted ==> budget <= r.cycle && (k > 0 ==> s.cycle + Cycles(prog, chain[..k - 1]) < budget))
  }

  lemma {:induction false} ChainNext(prog: seq<Instr>, chain: seq<nat>, s: State, s': State, budget: nat, r: State,
                                     k: nat)
    requires chain != [] && chain[0] < |prog| && s.cycle < budget
    requires s'.cycle == s.cycle + prog[chain[0]].latency && s'.ops == s.ops + 1
    requires FollowsChain(prog, chain[1..], s', budget, r, k)
    ensures FollowsChain(prog, chain, s, budget, r, k + 1)
  {
    assert chain[..k + 1][1..] == chain[1..][..k];
    if k > 0 {
      assert chain[..k][1..] == chain[1..][..k - 1];
    } else {
      assert chain[..0] == [];
    }
  }

  lemma {:induction false} ChainRun(prog: seq<Instr>, f: State -> State, s: State, budget: nat, r: State)
    returns (k: nat)
    requires Ticks(f, prog) && Forward(prog) && s.running && !s.halted && RanTo(f, s, budget, r)
    requires forall j :: 0 <= j < |prog| && prog[j].op == Halt ==> prog[j].latency == 0
    requires s.cycle + Cycles(prog, Chain(prog, s.pc)) < WORD
    ensures FollowsChain(prog, Chain(prog, s.pc), s, budget, r, k)
    decreases |prog| - s.pc
  {
    RanNext(f, s, budget, r);
    var chain := Chain(prog, s.pc);
    if s.cycle >= budget || s.pc >= |prog| || prog[s.pc].op == Halt {
      k := ChainEnds(prog, f, s, budget, r, chain);
    } else {
      var next := Tick(prog, s);
      assert f(s) == next && chain[1..] == Chain(prog, next.pc);
      k := ChainRun(prog, f, next, budget, r);
      ChainNext(prog, chain, s, next, budget, r, k);
      k := k + 1;
    }
  }

  lemma {:induction false} ChainEnds(prog: seq<Instr>, f: State -> State, s: State, budget: nat, r: State,
                                     chain: seq<nat>)
    returns (k: nat)
    requires Ticks(f, prog) && Forward(prog) && s.running && !s.halted && chain == Chain(prog, s.pc)
    requires if s.cycle < budget then RanTo(f, f(s), budget, r) else r == s
    requires s.cycle >= budget || s.pc >= |prog| || (prog[s.pc].op == Halt && prog[s.pc].latency == 0)
    requires s.cycle < WORD
    ensures FollowsChain(prog, chain, s, budget, r, k)
  {
    k := 0;
    assert chain[..0] == [];
    if s.cycle < budget {
      RanNext(f, f(s), budget, r);
      assert f(s) == Tick(prog, s);
      if s.pc < |prog| {
        k := 1;
        assert chain == [s.pc] && chain[1..] == [] && chain[..1] == chain;
      }
    }
  }

  /**
   A program whose branches all go forward executes exactly the chain of positions they and the order give, as far as
   the budget allows: it halts exactly when the cycles of the whole chain are below the budget, and otherwise stops
   with the first instruction that uses the budget up.
   */
  lemma {:induction false} ForwardRun(prog: seq<Instr>, budget: nat, r: State)
    requires Built(prog) && Forward(prog) && RanTo(Machine(prog), START, budget, r)
    ensures var chain := Chain(prog, 0);
            && r.ops <= |chain| && r.cycle == Cycles(prog, chain[..r.ops])
            && (r.halted <==> Cycles(prog, chain) < budget)
            && (r.halted ==> r.ops == |chain|)
            && (!r.halted ==> budget <= r.cycle && (r.ops > 0 ==> Cycles(prog, chain[..r.ops - 1]) < budget))
  {
    ChainIsShort(prog, 0);
    assert |Chain(prog, 0)| * MAX_LATENCY <= PROGRAM_SIZE * MAX_LATENCY;
    BuiltTicks(prog);
    var k := ChainRun(prog, Machine(prog), START, budget, r);
  }
}
