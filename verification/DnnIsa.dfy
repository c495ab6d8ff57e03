/**
 The accelerator's instruction set: building programs, running them against a cycle
 budget, and checking them. The cycle counter is 32 bits wide.
 */
module DnnIsa {

  datatype Option<T> = None | Some(value: T)

  const WORD := 0x1_0000_0000
  const PROGRAM_SIZE := 4096
  const REG_COUNT := 64
  const MAX_LATENCY := 64

  datatype Category = ControlOp | ScalarOp | VectorOp | MatrixOp | MemoryOp | ConfigOp | SparseOp

  datatype Meta = Meta(category: Category, minOperands: nat, maxOperands: nat, latency: nat)

  datatype Opcode =
    | Nop | Halt | Sync | Barrier | Add | Sub | Mul | Div
    | Max | Min | Relu | LeakyRelu | Sigmoid | Tanh | Exp | Sqrt
    | Abs | Vadd | Vmul | Vmadd | Vdot | Vrelu | Vsoftmax | Vlayernorm
    | Vbatchnorm | VreduceSum | VreduceMax | Matmul | MatmulBias | Conv2d | DepthwiseConv | Maxpool
    | Avgpool | Transpose | Im2col | Ld | St | LdMatrix | StMatrix | Prefetch
    | DmaCopy | DmaWait | Zero | Jmp | Jz | Jnz | Loop | Call
    | Ret | SetDtype | SetDataflow | SetTile | SetArray | SetPrecision | SparseMatmul | DenseToSparse
    | SparseToDense | SparsityMask
    | Unlisted(code: int)

  /** The opcode table; an opcode outside it has no entry. */
  function FindMeta(op: Opcode): Option<Meta> {
    match op
    case Nop => Some(Meta(ControlOp, 0, 0, 0))
    case Halt => Some(Meta(ControlOp, 0, 0, 0))
    case Sync => Some(Meta(ControlOp, 0, 0, 1))
    case Barrier => Some(Meta(ControlOp, 0, 0, 2))
    case Add => Some(Meta(ScalarOp, 2, 3, 1))
    case Sub => Some(Meta(ScalarOp, 2, 3, 1))
    case Mul => Some(Meta(ScalarOp, 2, 3, 2))
    case Div => Some(Meta(ScalarOp, 2, 3, 4))
    case Max => Some(Meta(ScalarOp, 2, 3, 1))
    case Min => Some(Meta(ScalarOp, 2, 3, 1))
    case Relu => Some(Meta(ScalarOp, 1, 2, 1))
    case LeakyRelu => Some(Meta(ScalarOp, 1, 3, 1))
    case Sigmoid => Some(Meta(ScalarOp, 1, 2, 8))
    case Tanh => Some(Meta(ScalarOp, 1, 2, 8))
    case Exp => Some(Meta(ScalarOp, 1, 2, 8))
    case Sqrt => Some(Meta(ScalarOp, 1, 2, 4))
    case Abs => Some(Meta(ScalarOp, 1, 2, 1))
    case Vadd => Some(Meta(VectorOp, 2, 4, 1))
    case Vmul => Some(Meta(VectorOp, 2, 4, 1))
    case Vmadd => Some(Meta(VectorOp, 3, 5, 1))
    case Vdot => Some(Meta(VectorOp, 2, 4, 1))
    case Vrelu => Some(Meta(VectorOp, 1, 3, 1))
    case Vsoftmax => Some(Meta(VectorOp, 1, 3, 12))
    case Vlayernorm => Some(Meta(VectorOp, 2, 5, 6))
    case Vbatchnorm => Some(Meta(VectorOp, 2, 5, 4))
    case VreduceSum => Some(Meta(VectorOp, 1, 3, 2))
    case VreduceMax => Some(Meta(VectorOp, 1, 3, 2))
    case Matmul => Some(Meta(MatrixOp, 2, 5, 32))
    case MatmulBias => Some(Meta(MatrixOp, 3, 6, 33))
    case Conv2d => Some(Meta(MatrixOp, 2, 8, 64))
    case DepthwiseConv => Some(Meta(MatrixOp, 2, 8, 48))
    case Maxpool => Some(Meta(MatrixOp, 1, 4, 4))
    case Avgpool => Some(Meta(MatrixOp, 1, 4, 4))
    case Transpose => Some(Meta(MatrixOp, 1, 3, 2))
    case Im2col => Some(Meta(MatrixOp, 1, 6, 8))
    case Ld => Some(Meta(MemoryOp, 1, 3, 4))
    case St => Some(Meta(MemoryOp, 1, 3, 4))
    case LdMatrix => Some(Meta(MemoryOp, 1, 4, 8))
    case StMatrix => Some(Meta(MemoryOp, 1, 4, 8))
    case Prefetch => Some(Meta(MemoryOp, 1, 3, 2))
    case DmaCopy => Some(Meta(MemoryOp, 2, 4, 8))
    case DmaWait => Some(Meta(MemoryOp, 0, 0, 1))
    case Zero => Some(Meta(MemoryOp, 1, 2, 1))
    case Jmp => Some(Meta(ControlOp, 1, 1, 1))
    case Jz => Some(Meta(ControlOp, 2, 2, 1))
    case Jnz => Some(Meta(ControlOp, 2, 2, 1))
    case Loop => Some(Meta(ControlOp, 2, 2, 1))
    case Call => Some(Meta(ControlOp, 1, 1, 2))
    case Ret => Some(Meta(ControlOp, 0, 0, 2))
    case SetDtype => Some(Meta(ConfigOp, 1, 1, 1))
    case SetDataflow => Some(Meta(ConfigOp, 1, 1, 1))
    case SetTile => Some(Meta(ConfigOp, 4, 4, 1))
    case SetArray => Some(Meta(ConfigOp, 2, 2, 1))
    case SetPrecision => Some(Meta(ConfigOp, 1, 1, 1))
    case SparseMatmul => Some(Meta(SparseOp, 2, 6, 20))
    case DenseToSparse => Some(Meta(SparseOp, 1, 3, 4))
    case SparseToDense => Some(Meta(SparseOp, 1, 3, 4))
    case SparsityMask => Some(Meta(SparseOp, 1, 3, 2))
    case Unlisted(_) => None
  }

  datatype Operand =
    | Reg(index: int)
    | Imm(value: int)
    | Mem(addr: int)
    | Label(id: int)
    | Matrix(matReg: int, row: int, col: int)
    | Vector(vecReg: int, offset: int, count: int)

  datatype Instr = Instr(op: Opcode, dtype: int, operands: seq<Operand>, latency: nat, branch: bool, target: nat)

  // ---------------------------------------------------------------- programs the emitters build

  /** As the emitters leave an instruction: listed, with its table latency, and branching only if it takes time. */
  ghost predicate Emitted(i: Instr) {
    && FindMeta(i.op).Some?
    && i.latency == FindMeta(i.op).value.latency
    && (i.branch ==> i.latency > 0)
  }

  ghost predicate Built(prog: seq<Instr>) {
    |prog| <= PROGRAM_SIZE && forall k :: 0 <= k < |prog| ==> Emitted(prog[k])
  }

  lemma LatencyBound(op: Opcode)
    requires FindMeta(op).Some?
    ensures FindMeta(op).value.latency <= MAX_LATENCY
  {
  }

  // ---------------------------------------------------------------- execution

  datatype State = State(pc: nat, cycle: nat, running: bool, halted: bool, stalls: nat, ops: nat, branches: nat)

  const START := State(0, 0, true, false, 0, 0, 0)

  function Latency(op: Opcode): nat {
    match FindMeta(op)
    case Some(m) => m.latency
    case None => 1
  }

  /** The effect of instruction `i`, taking `lat` cycles, in a program of `count` instructions. */
  function Exec(i: Instr, lat: nat, count: nat, s: State): State {
    var next := if i.branch then i.target else s.pc + 1;
    var halts := i.op.Halt?;
    State(next, (s.cycle + lat) % WORD, !halts, halts,
          if next >= count && !halts then (s.stalls + 1) % WORD else s.stalls,
          s.ops + 1,
          if i.branch then (s.branches + 1) % WORD else s.branches)
  }

  /** One instruction, or the stop at the end of the program. */
  function Step(prog: seq<Instr>, s: State): State {
    if s.halted || !s.running then s
    else if s.pc >= |prog| then s.(halted := true, running := false)
    else Exec(prog[s.pc], Latency(prog[s.pc].op), |prog|, s)
  }

  /** The machine a program makes: its step as a function of the state. */
  function Machine(prog: seq<Instr>): State -> State {
    s => Step(prog, s)
  }

  function Steps(f: State -> State, s: State, k: nat): State
    decreases k
  {
    if k == 0 then s else f(Steps(f, s, k - 1))
  }

  /** The run loop goes on. */
  predicate Going(s: State, budget: nat) {
    s.running && !s.halted && s.cycle < budget
  }

  ghost predicate StopsAfter(f: State -> State, s: State, budget: nat, k: nat) {
    !Going(Steps(f, s, k), budget) && forall j: nat :: j < k ==> Going(Steps(f, s, j), budget)
  }

  ghost predicate Stops(f: State -> State, s: State, budget: nat) {
    exists k: nat :: StopsAfter(f, s, budget, k)
  }

  ghost predicate RanTo(f: State -> State, s: State, budget: nat, r: State) {
    exists k: nat :: StopsAfter(f, s, budget, k) && r == Steps(f, s, k)
  }

  lemma {:induction false} StepsFromNext(f: State -> State, s: State, k: nat)
    ensures Steps(f, f(s), k) == Steps(f, s, k + 1)
  {
    if k > 0 { StepsFromNext(f, s, k - 1); }
  }

  lemma StopsLater(f: State -> State, s: State, budget: nat)
    requires Going(s, budget) && Stops(f, f(s), budget)
    ensures Stops(f, s, budget)
  {
    var k: nat :| StopsAfter(f, f(s), budget, k);
    StepsFromNext(f, s, k);
    forall j: nat | j < k + 1 ensures Going(Steps(f, s, j), budget) {
      if j > 0 {
        StepsFromNext(f, s, j - 1);
        assert Going(Steps(f, f(s), j - 1), budget);
      }
    }
    assert StopsAfter(f, s, budget, k + 1);
  }

  /** A step that trusts the latency recorded with the instruction; on built programs it is the same step. */
  ghost function Tick(prog: seq<Instr>, s: State): State {
    if s.halted || !s.running then s
    else if s.pc >= |prog| then s.(halted := true, running := false)
    else Exec(prog[s.pc], prog[s.pc].latency, |prog|, s)
  }

  ghost predicate Timed(prog: seq<Instr>) {
    forall k :: 0 <= k < |prog| ==> prog[k].latency <= MAX_LATENCY && (prog[k].branch ==> prog[k].latency > 0)
  }

  lemma {:induction false} BuiltIsTimed(prog: seq<Instr>)
    requires Built(prog)
    ensures Timed(prog)
  {
    forall k | 0 <= k < |prog| ensures prog[k].latency <= MAX_LATENCY && (prog[k].branch ==> prog[k].latency > 0) {
      assert Emitted(prog[k]);
      LatencyBound(prog[k].op);
    }
  }

  lemma {:induction false} StepIsTick(prog: seq<Instr>, s: State)
    requires Built(prog)
    ensures Step(prog, s) == Tick(prog, s)
  {
    if s.pc < |prog| { assert Emitted(prog[s.pc]); }
  }

  lemma TickCycle(prog: seq<Instr>, s: State, budget: nat)
    requires Timed(prog) && budget <= WORD - MAX_LATENCY && Going(s, budget)
    ensures s.cycle <= Tick(prog, s).cycle < budget + MAX_LATENCY
    ensures Going(Tick(prog, s), budget) && Tick(prog, s).cycle == s.cycle ==>
              s.pc < |prog| && Tick(prog, s).pc == s.pc + 1
  {
  }

  /**
   No program the emitters build runs for ever when the budget leaves room for one instruction below
   the counter's wrap: cycles grow, except over instructions that take none, and those never jump.
   */
  lemma {:induction false} RunStops(prog: seq<Instr>, s: State, budget: nat)
    requires Built(prog) && budget <= WORD - MAX_LATENCY
    ensures Stops(Machine(prog), s, budget)
    decreases if Going(s, budget) then 1 else 0,
              if s.cycle < budget then budget - s.cycle else 0,
              if s.pc < |prog| then |prog| - s.pc else 0
  {
    if Going(s, budget) {
      BuiltIsTimed(prog);
      StepIsTick(prog, s);
      TickCycle(prog, s, budget);
      RunStops(prog, Tick(prog, s), budget);
      StopsLater(Machine(prog), s, budget);
    } else {
      assert StopsAfter(Machine(prog), s, budget, 0);
    }
  }

  lemma {:induction false} StepsOvershoot(f: State -> State, s: State, budget: nat, k: nat)
    requires forall x :: Going(x, budget) ==> x.cycle <= f(x).cycle < budget + MAX_LATENCY
    requires s.cycle < budget && forall j: nat :: j < k ==> Going(Steps(f, s, j), budget)
    ensures s.cycle <= Steps(f, s, k).cycle < budget + MAX_LATENCY
  {
    if k > 0 {
      StepsOvershoot(f, s, budget, k - 1);
      assert Going(Steps(f, s, k - 1), budget);
    }
  }

  /** A run within such a budget overshoots it by less than one instruction. */
  lemma Overshoot(prog: seq<Instr>, s: State, budget: nat, r: State)
    requires Built(prog) && budget <= WORD - MAX_LATENCY && s.cycle < budget
    requires RanTo(Machine(prog), s, budget, r)
    ensures s.cycle <= r.cycle < budget + MAX_LATENCY
  {
    forall x | Going(x, budget) ensures x.cycle <= Machine(prog)(x).cycle < budget + MAX_LATENCY {
      BuiltIsTimed(prog);
      StepIsTick(prog, x);
      TickCycle(prog, x, budget);
    }
    var k: nat :| StopsAfter(Machine(prog), s, budget, k) && r == Steps(Machine(prog), s, k);
    StepsOvershoot(Machine(prog), s, budget, k);
  }

  // ---------------------------------------------------------------- a run that never ends

  function Plain(op: Opcode): Instr {
    Instr(op, 0, [Reg(0), Reg(1)], Latency(op), false, 0)
  }

  /**
   One cycle, then a loop of 48, 12, 2, 1, 64 and 1 cycles: the counter, taken modulo 128, is always at
   most 64 between instructions, so it steps over every narrower window below the wrap.
   */
  function Endless(): seq<Instr> {
    [Plain(Add), Plain(DepthwiseConv), Plain(Vsoftmax), Plain(Mul), Plain(Add), Plain(Conv2d),
     Instr(Jmp, 3, [Imm(1)], 1, true, 1)]
  }

  /** The counter modulo 128 before instruction `k` of the endless program. */
  function Residue(k: nat): nat
    requires k < 7
  {
    [0, 1, 49, 61, 63, 64, 0][k]
  }

  ghost predicate InLoop(s: State) {
    s.running && !s.halted && s.cycle < WORD && s.pc < 7 && s.cycle % 128 == Residue(s.pc)
  }

  lemma Advance(c: nat, lat: nat)
    requires c < WORD && lat <= 64
    ensures (c + lat) % WORD % 128 == (c % 128 + lat) % 128
  {
  }

  /** Instruction `i`, at position `k`, leads from the counter expected before it to the one expected after. */
  ghost predicate OnBeat(i: Instr, k: nat)
    requires k < 7
  {
    && i.latency <= 64 && !i.op.Halt? && i.branch == (k == 6) && (k == 6 ==> i.target == 1)
    && (Residue(k) + i.latency) % 128 == Residue(if k == 6 then 1 else k + 1)
  }

  lemma {:induction false} BeatKeepsLoop(s: State, i: Instr)
    requires InLoop(s) && OnBeat(i, s.pc)
    ensures InLoop(Exec(i, i.latency, 7, s))
  {
    Advance(s.cycle, i.latency);
  }

  lemma {:induction false} LoopTicks(s: State)
    requires InLoop(s)
    ensures InLoop(Tick(Endless(), s))
  {
    EndlessTimes(s.pc, Endless()[s.pc]);
    BeatKeepsLoop(s, Endless()[s.pc]);
  }

  lemma EndlessTimes(k: nat, i: Instr)
    requires k < 7 && i == Endless()[k]
    ensures OnBeat(i, k)
  {
    if k == 6 {
      assert i == Instr(Jmp, 3, [Imm(1)], 1, true, 1);
    } else {
      var op := [Add, DepthwiseConv, Vsoftmax, Mul, Add, Conv2d][k];
      assert i == Plain(op);
      PlainTimes(op, k);
      PlainOnBeat(op, k);
    }
  }

  lemma PlainTimes(op: Opcode, k: nat)
    requires k < 6 && op == [Add, DepthwiseConv, Vsoftmax, Mul, Add, Conv2d][k]
    ensures op != Halt && Latency(op) <= 64 && (Residue(k) + Latency(op)) % 128 == Residue(k + 1)
  {
  }

  lemma PlainOnBeat(op: Opcode, k: nat)
    requires k < 6 && op != Halt && Latency(op) <= 64 && (Residue(k) + Latency(op)) % 128 == Residue(k + 1)
    ensures OnBeat(Plain(op), k)
  {
  }

  lemma {:induction false} InLoopGoes(s: State, budget: nat)
    requires InLoop(s) && budget > WORD - MAX_LATENCY
    ensures Going(s, budget)
  {
    assert s.cycle % 128 <= 64;
    assert s.cycle / 128 <= WORD / 128 - 1;
  }

  lemma {:induction false} StaysInLoop(f: State -> State, k: nat)
    requires forall x :: InLoop(x) ==> InLoop(f(x))
    ensures InLoop(Steps(f, START, k))
  {
    if k > 0 { StaysInLoop(f, k - 1); }
  }

  lemma NeverStops(budget: nat)
    requires budget > WORD - MAX_LATENCY
    ensures !Stops(Machine(Endless()), START, budget)
  {
    forall x | InLoop(x) ensures InLoop(Machine(Endless())(x)) {
      EndlessValidates();
      StepIsTick(Endless(), x);
      LoopTicks(x);
    }
    forall k: nat ensures !StopsAfter(Machine(Endless()), START, budget, k) {
      StaysInLoop(Machine(Endless()), k);
      InLoopGoes(Steps(Machine(Endless()), START, k), budget);
    }
  }

  lemma PlainIsFine(op: Opcode, count: nat)
    requires FindMeta(op).Some? && FindMeta(op).value.minOperands <= 2 <= FindMeta(op).value.maxOperands
    ensures Emitted(Plain(op)) && InstrOk(Plain(op), count)
  {
  }

  lemma JumpIsFine(target: nat, count: nat)
    requires target < count
    ensures Emitted(Instr(Jmp, 3, [Imm(target)], 1, true, target))
            && InstrOk(Instr(Jmp, 3, [Imm(target)], 1, true, target), count)
  {
  }

  lemma {:induction false} EndlessAt(k: nat)
    requires k < 7
    ensures Emitted(Endless()[k]) && InstrOk(Endless()[k], 7)
  {
    match k
    case 0 => PlainIsFine(Add, 7);
    case 1 => PlainIsFine(DepthwiseConv, 7);
    case 2 => PlainIsFine(Vsoftmax, 7);
    case 3 => PlainIsFine(Mul, 7);
    case 4 => PlainIsFine(Add, 7);
    case 5 => PlainIsFine(Conv2d, 7);
    case 6 => JumpIsFine(1, 7);
  }

  /** Every built program stops within the budget exactly when the budget is at most 2^32 - 64. */
  lemma AllStopIff(budget: nat)
    ensures (forall prog :: Built(prog) ==> Stops(Machine(prog), START, budget)) <==> budget <= WORD - MAX_LATENCY
  {
    if budget <= WORD - MAX_LATENCY {
      forall prog | Built(prog) ensures Stops(Machine(prog), START, budget) {
        RunStops(prog, START, budget);
      }
    } else {
      EndlessValidates();
      NeverStops(budget);
    }
  }

  // ---------------------------------------------------------------- validation

  predicate RegistersOk(o: Operand) {
    match o
    case Reg(r) => 0 <= r < REG_COUNT
    case Matrix(r, _, _) => 0 <= r < REG_COUNT
    case _ => true
  }

  predicate InstrOk(i: Instr, count: nat) {
    && FindMeta(i.op).Some?
    && FindMeta(i.op).value.minOperands <= |i.operands| <= FindMeta(i.op).value.maxOperands
    && (forall j :: 0 <= j < |i.operands| ==> RegistersOk(i.operands[j]))
    && (i.branch ==> i.target < count)
  }

  predicate Validates(prog: seq<Instr>) {
    |prog| == 0 || (|prog| <= PROGRAM_SIZE && forall k :: 0 <= k < |prog| ==> InstrOk(prog[k], |prog|))
  }

  lemma {:induction false} StepsStayInside(f: State -> State, s: State, k: nat, count: nat)
    requires s.pc <= count && forall x: State :: x.pc <= count ==> f(x).pc <= count
    ensures Steps(f, s, k).pc <= count
  {
    if k > 0 { StepsStayInside(f, s, k - 1, count); }
  }

  /** A validated program never runs further than one past its last instruction. */
  lemma {:induction false} PcStaysInside(prog: seq<Instr>, s: State, k: nat)
    requires Validates(prog) && s.pc <= |prog|
    ensures Steps(Machine(prog), s, k).pc <= |prog|
  {
    forall x: State | x.pc <= |prog| ensures Machine(prog)(x).pc <= |prog| {
      if x.pc < |prog| { assert InstrOk(prog[x.pc], |prog|); }
    }
    StepsStayInside(Machine(prog), s, k, |prog|);
  }

  /** Validation does not rule out an endless run. */
  lemma EndlessValidates()
    ensures Validates(Endless()) && Built(Endless())
  {
    assert |Endless()| == 7;
    forall k: nat | k < 7 ensures Emitted(Endless()[k]) && InstrOk(Endless()[k], 7) {
      EndlessAt(k);
    }
  }

  // ---------------------------------------------------------------- straight-line programs

  function StaticCycles(prog: seq<Instr>, k: nat): nat
    requires k <= |prog|
  {
    if k == 0 then 0 else StaticCycles(prog, k - 1) + prog[k - 1].latency
  }

  ghost predicate StraightLine(prog: seq<Instr>) {
    && |prog| > 0 && prog[|prog| - 1].op.Halt?
    && (forall k :: 0 <= k < |prog| ==> !prog[k].branch)
    && (forall k :: 0 <= k < |prog| - 1 ==> !prog[k].op.Halt?)
  }

  lemma {:induction false} StaticBound(prog: seq<Instr>, k: nat)
    requires Built(prog) && k <= |prog|
    ensures StaticCycles(prog, k) <= k * MAX_LATENCY
  {
    if k > 0 {
      StaticBound(prog, k - 1);
      assert Emitted(prog[k - 1]);
      LatencyBound(prog[k - 1].op);
    }
  }

  lemma {:induction false} StaticGrows(prog: seq<Instr>, j: nat, k: nat)
    requires j <= k <= |prog|
    ensures StaticCycles(prog, j) <= StaticCycles(prog, k)
    decreases k
  {
    if j < k { StaticGrows(prog, j, k - 1); }
  }

  /** Where a straight-line program is after `k` instructions. */
  function AfterLine(prog: seq<Instr>, k: nat): State
    requires k <= |prog|
  {
    State(k, StaticCycles(prog, k), k < |prog|, k == |prog|, 0, k, 0)
  }

  lemma StraightTick(prog: seq<Instr>, k: nat)
    requires StraightLine(prog) && k < |prog| && StaticCycles(prog, k + 1) < WORD
    ensures Tick(prog, AfterLine(prog, k)) == AfterLine(prog, k + 1)
  {
  }

  lemma {:induction false} StraightSteps(prog: seq<Instr>, f: State -> State, k: nat)
    requires k <= |prog| && |prog| > 0
    requires forall j: nat :: j < |prog| ==> f(AfterLine(prog, j)) == AfterLine(prog, j + 1)
    ensures Steps(f, START, k) == AfterLine(prog, k)
  {
    if k > 0 { StraightSteps(prog, f, k - 1); }
  }

  lemma LineSteps(prog: seq<Instr>, k: nat)
    requires Built(prog) && StraightLine(prog) && k <= |prog|
    ensures Steps(Machine(prog), START, k) == AfterLine(prog, k)
  {
    forall j: nat | j < |prog| ensures Machine(prog)(AfterLine(prog, j)) == AfterLine(prog, j + 1) {
      StaticBound(prog, j + 1);
      assert (j + 1) * MAX_LATENCY <= PROGRAM_SIZE * MAX_LATENCY;
      StraightTick(prog, j);
      StepIsTick(prog, AfterLine(prog, j));
    }
    StraightSteps(prog, Machine(prog), k);
  }

  /**
   A program without branches whose only HALT is its last instruction halts exactly when its static cycle
   count is below the budget, and then has taken that many cycles, one instruction each.
   */
  lemma StraightRun(prog: seq<Instr>, budget: nat, r: State)
    requires Built(prog) && StraightLine(prog) && RanTo(Machine(prog), START, budget, r)
    ensures r.halted <==> StaticCycles(prog, |prog|) < budget
    ensures r.halted ==> r.cycle == StaticCycles(prog, |prog|) && r.ops == |prog|
    ensures !r.halted ==> r.ops < |prog| && budget <= r.cycle == StaticCycles(prog, r.ops)
  {
    forall k: nat | k <= |prog| ensures Steps(Machine(prog), START, k) == AfterLine(prog, k) {
      LineSteps(prog, k);
    }
    assert Emitted(prog[|prog| - 1]);
    StraightStops(prog, Machine(prog), budget, r);
  }

  lemma StraightStops(prog: seq<Instr>, f: State -> State, budget: nat, r: State)
    requires |prog| > 0 && prog[|prog| - 1].latency == 0
    requires forall k: nat :: k <= |prog| ==> Steps(f, START, k) == AfterLine(prog, k)
    requires RanTo(f, START, budget, r)
    ensures r.halted <==> StaticCycles(prog, |prog|) < budget
    ensures r.halted ==> r.cycle == StaticCycles(prog, |prog|) && r.ops == |prog|
    ensures !r.halted ==> r.ops < |prog| && budget <= r.cycle == StaticCycles(prog, r.ops)
  {
    var n := |prog|;
    var k: nat :| StopsAfter(f, START, budget, k) && r == Steps(f, START, k);
    assert Steps(f, START, n) == AfterLine(prog, n);
    assert k <= n;
    StaticGrows(prog, k, n);
    assert Steps(f, START, n - 1) == AfterLine(prog, n - 1);
  }

  // ---------------------------------------------------------------- statistics

  predicate InCategory(op: Opcode, c: Category) {
    FindMeta(op).Some? && FindMeta(op).value.category == c
  }

  function CountOf(prog: seq<Instr>, k: nat, c: Category): nat
    requires k <= |prog|
  {
    if k == 0 then 0
    else CountOf(prog, k - 1, c) + (if InCategory(prog[k - 1].op, c) then 1 else 0)
  }

  datatype Stats = Stats(total: nat, scalar: nat, vector: nat, matrix: nat, memory: nat, control: nat, config: nat,
                         sparse: nat, cycles: nat)

  function Bump(counts: seq<nat>, op: Opcode): (r: seq<nat>)
    requires |counts| == 7
    ensures |r| == 7
  {
    match FindMeta(op)
    case Some(m) => counts[Slot(m.category) := counts[Slot(m.category)] + 1]
    case None => counts
  }

  function Tally(prog: seq<Instr>, k: nat): (r: seq<nat>)
    requires k <= |prog|
    ensures |r| == 7
  {
    if k == 0 then [0, 0, 0, 0, 0, 0, 0] else Bump(Tally(prog, k - 1), prog[k - 1].op)
  }

  lemma {:induction false} TallyCounts(prog: seq<Instr>, k: nat, c: Category)
    requires k <= |prog|
    ensures Tally(prog, k)[Slot(c)] == CountOf(prog, k, c)
  {
    if k > 0 {
      TallyCounts(prog, k - 1, c);
      BumpAdds(Tally(prog, k - 1), prog[k - 1].op, c);
    }
  }

  lemma BumpAdds(counts: seq<nat>, op: Opcode, c: Category)
    requires |counts| == 7
    ensures Bump(counts, op)[Slot(c)]
         == counts[Slot(c)] + (if InCategory(op, c) then 1 else 0)
  {
  }

  /** In a built program every instruction falls into one category. */
  lemma {:induction false} CategoriesPartition(prog: seq<Instr>, k: nat)
    requires Built(prog) && k <= |prog|
    ensures CountOf(prog, k, ScalarOp) + CountOf(prog, k, VectorOp) + CountOf(prog, k, MatrixOp)
          + CountOf(prog, k, MemoryOp)
          + CountOf(prog, k, ControlOp) + CountOf(prog, k, ConfigOp) + CountOf(prog, k, SparseOp) == k
  {
    if k > 0 {
      CategoriesPartition(prog, k - 1);
      assert Emitted(prog[k - 1]);
    }
  }

  // ---------------------------------------------------------------- the code

  /** The instruction is appended with its table latency, unless the program is full or the opcode unlisted. */
  ghost predicate Appended(before: seq<Instr>, after: seq<Instr>, op: Opcode, dtype: int, operands: seq<Operand>,
                           jump: Option<nat>)
  {
    after == if |before| >= PROGRAM_SIZE || FindMeta(op).None? then before
             else before + [Instr(op, dtype, operands, Latency(op), jump.Some?, if jump.Some? then jump.value else 0)]
  }

  /** The program is full, the opcode is unlisted, or the instruction would validate. */
  predicate Harmless(count: nat, op: Opcode, operands: seq<Operand>, jump: Option<nat>) {
    || count >= PROGRAM_SIZE || FindMeta(op).None?
    || (&& FindMeta(op).value.minOperands <= |operands| <= FindMeta(op).value.maxOperands
        && (forall j :: 0 <= j < |operands| ==> RegistersOk(operands[j]))
        && (jump.Some? ==> jump.value <= count))
  }

  /** A program that validates goes on to do so exactly when what is appended does: targets stay in range. */
  lemma {:induction false} AppendedValidates(before: seq<Instr>, after: seq<Instr>, op: Opcode, dtype: int,
                                             operands: seq<Operand>, jump: Option<nat>)
    requires Appended(before, after, op, dtype, operands, jump) && Validates(before)
    ensures Validates(after) <==> Harmless(|before|, op, operands, jump)
  {
    if after != before {
      assert |after| == |before| + 1;
      forall k | 0 <= k < |before| ensures InstrOk(after[k], |after|) {
        assert InstrOk(before[k], |before|);
      }
      assert InstrOk(after[|before|], |after|) <==> Harmless(|before|, op, operands, jump);
    }
  }

  /** Two 32-bit counts in one signed 64-bit word. */
  function PackedChannels(low: nat, high: nat): int {
    var v := low + high * WORD;
    if v >= WORD * WORD / 2 then v - WORD * WORD else v
  }

  /** Both counts can be read back, and the word is negative exactly for output counts of 2^31 and more. */
  lemma {:induction false} PackedChannelsRoundTrip(low: nat, high: nat)
    requires low < WORD && high < WORD
    ensures PackedChannels(low, high) % WORD == low && PackedChannels(low, high) / WORD % WORD == high
    ensures PackedChannels(low, high) < 0 <==> high >= WORD / 2
  {
    var v := PackedChannels(low, high);
    var q := if v < 0 then high - WORD else high;
    assert v == q * WORD + low;
    assert v / WORD == q;
  }

  class Program {
    var instrs: seq<Instr>

    constructor ()
      ensures instrs == []
    {
      instrs := [];
    }

    /** Appends an instruction without operands; -1 when the program is full or the opcode unlisted. */
    method AddInstr(op: Opcode, dtype: int) returns (idx: int)
      modifies this
      ensures |old(instrs)| >= PROGRAM_SIZE || FindMeta(op).None? ==> idx == -1 && instrs == old(instrs)
      ensures |old(instrs)| < PROGRAM_SIZE && FindMeta(op).Some? ==>
                idx == |old(instrs)| && instrs == old(instrs) + [Instr(op, dtype, [], Latency(op), false, 0)]
      ensures Built(old(instrs)) ==> Built(instrs)
    {
      if |instrs| >= PROGRAM_SIZE {
        return -1;
      }
      match FindMeta(op) {
        case None => idx := -1;
        case Some(meta) =>
          idx := |instrs|;
          instrs := instrs + [Instr(op, dtype, [], meta.latency, false, 0)];
      }
    }

    /** Appends an instruction and gives it operands and, if it jumps, its target. */
    method Emit(op: Opcode, dtype: int, operands: seq<Operand>, jump: Option<nat>)
      requires jump.Some? ==> op == Loop || op == Jmp
      modifies this
      ensures Appended(old(instrs), instrs, op, dtype, operands, jump)
      ensures Built(old(instrs)) ==> Built(instrs)
    {
      var idx := AddInstr(op, dtype);
      if idx < 0 {
        return;
      }
      var instr := instrs[idx].(operands := operands);
      if jump.Some? {
        instr := instr.(branch := true, target := jump.value);
      }
      instrs := instrs[idx := instr];
      assert FindMeta(op).value.latency == Latency(op);
    }

    /** The second source is left out when it is negative. */
    method EmitScalarOp(op: Opcode, dtype: int, dst: int, src1: int, src2: int)
      modifies this
      ensures Appended(old(instrs), instrs, op, dtype,
                       if src2 >= 0 then [Reg(dst), Reg(src1), Reg(src2)] else [Reg(dst), Reg(src1)], None)
      ensures Built(old(instrs)) ==> Built(instrs)
    {
      var operands := [Reg(dst), Reg(src1)];
      if src2 >= 0 {
        operands := operands + [Reg(src2)];
        assert operands == [Reg(dst), Reg(src1), Reg(src2)];
      }
      Emit(op, dtype, operands, None);
    }

    method EmitVectorOp(op: Opcode, dtype: int, dst: int, src1: int, src2: int, len: int)
      modifies this
      ensures Appended(old(instrs), instrs, op, dtype,
                       [Vector(dst, 0, len), Vector(src1, 0, len), Vector(src2, 0, len), Imm(len)], None)
      ensures Built(old(instrs)) ==> Built(instrs)
      ensures Validates(old(instrs)) ==>
                (Validates(instrs) <==>
                 || |old(instrs)| >= PROGRAM_SIZE || FindMeta(op).None?
                 || FindMeta(op).value.minOperands <= 4 <= FindMeta(op).value.maxOperands)
    {
      var operands := [Vector(dst, 0, len), Vector(src1, 0, len), Vector(src2, 0, len), Imm(len)];
      Emit(op, dtype, operands, None);
      if Validates(old(instrs)) {
        AppendedValidates(old(instrs), instrs, op, dtype, operands, None);
      }
    }

    method EmitLoad(dtype: int, dst: int, addr: int, size: int)
      modifies this
      ensures Appended(old(instrs), instrs, Ld, dtype, [Reg(dst), Mem(addr), Imm(size)], None)
      ensures Built(old(instrs)) ==> Built(instrs)
      ensures Validates(old(instrs)) ==>
                (Validates(instrs) <==> |old(instrs)| >= PROGRAM_SIZE || 0 <= dst < REG_COUNT)
    {
      var operands := [Reg(dst), Mem(addr), Imm(size)];
      Emit(Ld, dtype, operands, None);
      if Validates(old(instrs)) {
        AppendedValidates(old(instrs), instrs, Ld, dtype, operands, None);
        assert RegistersOk(operands[0]) == (0 <= dst < REG_COUNT);
      }
    }

    method EmitStore(dtype: int, src: int, addr: int, size: int)
      modifies this
      ensures Appended(old(instrs), instrs, St, dtype, [Reg(src), Mem(addr), Imm(size)], None)
      ensures Built(old(instrs)) ==> Built(instrs)
      ensures Validates(old(instrs)) ==>
                (Validates(instrs) <==> |old(instrs)| >= PROGRAM_SIZE || 0 <= src < REG_COUNT)
    {
      var operands := [Reg(src), Mem(addr), Imm(size)];
      Emit(St, dtype, operands, None);
      if Validates(old(instrs)) {
        AppendedValidates(old(instrs), instrs, St, dtype, operands, None);
        assert RegistersOk(operands[0]) == (0 <= src < REG_COUNT);
      }
    }

    /** The six operands exceed the five the table allows, so no program holding this instruction validates. */
    method EmitMatmul(dtype: int, dst: int, lhs: int, rhs: int, m: int, n: int, k: int)
      modifies this
      ensures Appended(old(instrs), instrs, Matmul, dtype,
                       [Matrix(dst, 0, 0), Matrix(lhs, 0, 0), Matrix(rhs, 0, 0), Imm(m), Imm(n), Imm(k)], None)
      ensures Built(old(instrs)) ==> Built(instrs)
      ensures |old(instrs)| < PROGRAM_SIZE ==> !Validates(instrs)
    {
      Emit(Matmul, dtype, [Matrix(dst, 0, 0), Matrix(lhs, 0, 0), Matrix(rhs, 0, 0), Imm(m), Imm(n), Imm(k)], None);
      assert |old(instrs)| < PROGRAM_SIZE ==> !InstrOk(instrs[|old(instrs)|], |instrs|);
    }

    /** Input and output channel counts share the last immediate, which is a signed 64-bit word. */
    method EmitConv2d(dtype: int, dst: int, input: int, weight: int, h: int, w: int, channelsIn: nat, channelsOut: nat)
      requires channelsIn < WORD && channelsOut < WORD
      modifies this
      ensures Appended(old(instrs), instrs, Conv2d, dtype,
                       [Reg(dst), Reg(input), Reg(weight), Imm(h), Imm(w),
                        Imm(PackedChannels(channelsIn, channelsOut))], None)
      ensures Built(old(instrs)) ==> Built(instrs)
    {
      var packed := Imm(PackedChannels(channelsIn, channelsOut));
      Emit(Conv2d, dtype, [Reg(dst), Reg(input), Reg(weight), Imm(h), Imm(w), packed], None);
    }

    method EmitLoop(counter: int, bodyStart: nat)
      modifies this
      ensures Appended(old(instrs), instrs, Loop, 3, [Reg(counter), Imm(bodyStart)], Some(bodyStart))
      ensures Built(old(instrs)) ==> Built(instrs)
      ensures Validates(old(instrs)) ==>
                (Validates(instrs) <==>
                 || |old(instrs)| >= PROGRAM_SIZE || (0 <= counter < REG_COUNT && bodyStart <= |old(instrs)|))
    {
      var operands := [Reg(counter), Imm(bodyStart)];
      Emit(Loop, 3, operands, Some(bodyStart));
      if Validates(old(instrs)) {
        AppendedValidates(old(instrs), instrs, Loop, 3, operands, Some(bodyStart));
        assert RegistersOk(operands[0]) == (0 <= counter < REG_COUNT);
      }
    }

    method EmitJmp(target: nat)
      modifies this
      ensures Appended(old(instrs), instrs, Jmp, 3, [Imm(target)], Some(target))
      ensures Built(old(instrs)) ==> Built(instrs)
    {
      Emit(Jmp, 3, [Imm(target)], Some(target));
    }

    method EmitHalt()
      modifies this
      ensures Appended(old(instrs), instrs, Halt, 3, [], None)
      ensures Built(old(instrs)) ==> Built(instrs)
      ensures Validates(old(instrs)) ==> Validates(instrs)
    {
      var idx := AddInstr(Halt, 3);
      if Validates(old(instrs)) {
        AppendedValidates(old(instrs), instrs, Halt, 3, [], None);
      }
    }

    method CollectStats() returns (s: Stats)
      ensures s.total == |instrs| && s.cycles == StaticCycles(instrs, |instrs|) % WORD
      ensures s.scalar == CountOf(instrs, |instrs|, ScalarOp) && s.vector == CountOf(instrs, |instrs|, VectorOp)
      ensures s.matrix == CountOf(instrs, |instrs|, MatrixOp) && s.memory == CountOf(instrs, |instrs|, MemoryOp)
      ensures s.control == CountOf(instrs, |instrs|, ControlOp) && s.config == CountOf(instrs, |instrs|, ConfigOp)
      ensures s.sparse == CountOf(instrs, |instrs|, SparseOp)
    {
      var counts := [0, 0, 0, 0, 0, 0, 0];
      var latency := 0;
      var i := 0;
      while i < |instrs|
        invariant 0 <= i <= |instrs| && latency == StaticCycles(instrs, i) % WORD
        invariant counts == Tally(instrs, i)
      {
        var op := instrs[i].op;
        counts := Bump(counts, op);
        latency := (latency + instrs[i].latency) % WORD;
        i := i + 1;
      }
      s := Stats(|instrs|, counts[0], counts[1], counts[2], counts[3], counts[4], counts[5], counts[6], latency);
      forall c ensures counts[Slot(c)] == CountOf(instrs, |instrs|, c) { TallyCounts(instrs, |instrs|, c); }
    }

    method Validate() returns (ok: bool)
      ensures ok == Validates(instrs)
      ensures ok ==> forall k: nat, j: nat :: k < |instrs| && j < |instrs[k].operands| ==>
                       && (instrs[k].operands[j].Reg? ==> 0 <= instrs[k].operands[j].index < 64)
                       && (instrs[k].operands[j].Matrix? ==> 0 <= instrs[k].operands[j].matReg < 64)
    {
      if |instrs| == 0 {
        return true;
      }
      if |instrs| > PROGRAM_SIZE {
        return false;
      }
      var i := 0;
      while i < |instrs|
        invariant 0 <= i <= |instrs| && forall k :: 0 <= k < i ==> InstrOk(instrs[k], |instrs|)
      {
        var instr := instrs[i];
        var meta := FindMeta(instr.op);
        if meta.None? || |instr.operands| < meta.value.minOperands || |instr.operands| > meta.value.maxOperands {
          return false;
        }
        var j := 0;
        while j < |instr.operands|
          invariant 0 <= j <= |instr.operands| && forall l :: 0 <= l < j ==> RegistersOk(instr.operands[l])
        {
          if !RegistersOk(instr.operands[j]) {
            return false;
          }
          j := j + 1;
        }
        if instr.branch && instr.target >= |instrs| {
          return false;
        }
        i := i + 1;
      }
      return true;
    }
  }

  function Slot(c: Category): (r: nat)
    ensures r < 7
  {
    match c
    case ScalarOp => 0
    case VectorOp => 1
    case MatrixOp => 2
    case MemoryOp => 3
    case ControlOp => 4
    case ConfigOp => 5
    case SparseOp => 6
  }

  method EmitPlain(p: Program, op: Opcode)
    requires FindMeta(op).Some? && |p.instrs| < PROGRAM_SIZE
    modifies p
    ensures p.instrs == old(p.instrs) + [Plain(op)]
  {
    p.EmitScalarOp(op, 0, 0, 1, -1);
  }

  method EmitThree(p: Program, a: Opcode, b: Opcode, c: Opcode)
    requires FindMeta(a).Some? && FindMeta(b).Some? && FindMeta(c).Some? && |p.instrs| + 3 <= PROGRAM_SIZE
    modifies p
    ensures p.instrs == old(p.instrs) + [Plain(a), Plain(b), Plain(c)]
  {
    EmitPlain(p, a);
    EmitPlain(p, b);
    EmitPlain(p, c);
  }

  /** The endless program, emitted call by call. */
  method EmitEndless() returns (p: Program)
    ensures fresh(p) && p.instrs == Endless()
  {
    p := new Program();
    EmitThree(p, Add, DepthwiseConv, Vsoftmax);
    EmitThree(p, Mul, Add, Conv2d);
    EmitBack(p);
  }

  method EmitBack(p: Program)
    requires |p.instrs| < PROGRAM_SIZE
    modifies p
    ensures p.instrs == old(p.instrs) + [Instr(Jmp, 3, [Imm(1)], 1, true, 1)]
  {
    p.EmitJmp(1);
  }

  class Context {
    const program: Program
    var pc: nat
    var cycle: nat
    var running: bool
    var halted: bool
    var stalls: nat
    var ops: nat
    var branches: nat

    ghost function Now(): State reads this {
      State(pc, cycle, running, halted, stalls, ops, branches)
    }

    constructor (program: Program)
      ensures this.program == program && Now() == START
    {
      this.program := program;
      pc, cycle, running, halted, stalls, ops, branches := 0, 0, true, false, 0, 0, 0;
    }

    /** Executes one instruction and tells its cycles. */
    method ExecStep() returns (taken: nat)
      modifies this
      ensures Now() == Step(program.instrs, old(Now()))
      ensures old(halted) || !old(running) || old(pc) >= |program.instrs| ==> taken == 0
      ensures !old(halted) && old(running) && old(pc) < |program.instrs| ==>
                match FindMeta(program.instrs[old(pc)].op)
                case Some(m) => taken == m.latency
                case None => taken == 1
    {
      if halted || !running {
        return 0;
      }
      if pc >= |program.instrs| {
        halted := true;
        running := false;
        return 0;
      }
      taken := Latency(program.instrs[pc].op);
      Execute(program.instrs[pc], taken);
    }

    method Execute(instr: Instr, lat: nat)
      requires running && !halted
      modifies this
      ensures Now() == Exec(instr, lat, |program.instrs|, old(Now()))
    {
      ops := ops + 1;
      var nextPc := pc + 1;
      if instr.branch {
        branches := (branches + 1) % WORD;
        nextPc := instr.target;
      }
      if instr.op.Halt? {
        halted := true;
        running := false;
      }
      pc := nextPc;
      cycle := (cycle + lat) % WORD;
      if pc >= |program.instrs| && !halted {
        stalls := (stalls + 1) % WORD;
      }
    }

    /** Runs until the program halts or the budget is used up, for any run of that kind that comes to an end. */
    method ExecRun(maxCycles: nat)
      requires Stops(Machine(program.instrs), Now().(running := true), maxCycles)
      modifies this
      ensures RanTo(Machine(program.instrs), old(Now()).(running := true), maxCycles, Now())
    {
      running := true;
      RunLoop(maxCycles, Machine(program.instrs));
    }

    /** One step, told in terms of the machine `f` that the program makes. */
    method StepAs(ghost f: State -> State)
      requires forall x {:trigger Step(program.instrs, x)} :: f(x) == Step(program.instrs, x)
      modifies this
      ensures Now() == f(old(Now()))
    {
      var taken := ExecStep();
    }

    method RunLoop(maxCycles: nat, ghost f: State -> State)
      requires forall x {:trigger Step(program.instrs, x)} :: f(x) == Step(program.instrs, x)
      requires Stops(f, Now(), maxCycles)
      modifies this
      ensures RanTo(f, old(Now()), maxCycles, Now())
    {
      ghost var start := Now();
      ghost var last: nat :| StopsAfter(f, start, maxCycles, last);
      ghost var k: nat := 0;
      while running && !halted && cycle < maxCycles
        invariant program.instrs == old(program.instrs) && Now() == Steps(f, start, k) && k <= last
        invariant forall j: nat :: j < k ==> Going(Steps(f, start, j), maxCycles)
        decreases last - k
      {
        ghost var before := Now();
        assert Going(before, maxCycles);
        StepAs(f);
        k := k + 1;
      }
      assert StopsAfter(f, start, maxCycles, k);
    }
  }
}
