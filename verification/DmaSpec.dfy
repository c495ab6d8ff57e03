/**
 The DMA engine as a state machine on values: submit, prefetch, tick, reset and drain.
 The engine class is proved to take exactly these steps; here are their laws.
 */
module DmaSpec {

  const MAX_CHANNELS := 8
  const MAX_PREFETCH := 32
  const UINT32_RANGE := 0x1_0000_0000

  datatype Status = Idle | Pending | InFlight | Complete | Error

  /** `fields` stands for the direction, addresses, pattern and priority, which are only copied. */
  datatype Descriptor = Descriptor(fields: int, size: nat, completeCycle: nat, status: Status) {
    predicate Fits() {
      size < UINT32_RANGE && completeCycle < UINT32_RANGE
    }
  }

  const NoTransfer := Descriptor(0, 0, 0, Idle)

  datatype Dma = Dma(
    channels: seq<Descriptor>, busy: seq<bool>, numChannels: nat, active: nat, bandwidth: real,
    totalBytes: nat, totalCycles: nat,
    ring: seq<Descriptor>, head: nat, tail: nat, count: nat)

  function CountBusy(busy: seq<bool>, k: nat): nat
    requires k <= |busy|
  {
    if k == 0 then 0 else CountBusy(busy, k - 1) + (if busy[k - 1] then 1 else 0)
  }

  ghost predicate Shape(s: Dma) {
    && |s.channels| == |s.busy| == MAX_CHANNELS && s.numChannels <= MAX_CHANNELS
    && |s.ring| == MAX_PREFETCH && s.head < MAX_PREFETCH && s.tail < MAX_PREFETCH && s.count <= MAX_PREFETCH
    && (forall i :: 0 <= i < MAX_CHANNELS ==> s.channels[i].Fits())
    && (forall i :: 0 <= i < MAX_PREFETCH ==> s.ring[i].Fits())
  }

  /** The ring position `k` places after `head`. */
  function Slot(head: nat, k: nat): nat
    requires head < MAX_PREFETCH && k <= MAX_PREFETCH
  {
    if head + k < MAX_PREFETCH then head + k else head + k - MAX_PREFETCH
  }

  lemma SlotIsMod(head: nat, k: nat)
    requires head < MAX_PREFETCH && k <= MAX_PREFETCH
    ensures Slot(head, k) == (head + k) % MAX_PREFETCH
  {
  }

  /** What every step keeps. */
  ghost predicate Consistent(s: Dma) {
    && Shape(s)
    && s.active == CountBusy(s.busy, s.numChannels)
    && (forall i :: 0 <= i < s.numChannels && s.busy[i] ==> s.channels[i].status.InFlight?)
    && s.tail == Slot(s.head, s.count)
  }

  // ---------------------------------------------------------------- steps

  /** Ticks a transfer takes on its share of the bandwidth, as a 32-bit count of at least one. */
  function TransferCycles(bandwidth: real, numChannels: nat, size: nat): (t: nat)
    requires numChannels > 0
    ensures 1 <= t < UINT32_RANGE
  {
    if bandwidth > 0.0 then
      var perChannel := bandwidth / numChannels as real;
      var t := (size as real / perChannel).Floor;
      if t < 1 then 1 else if t >= UINT32_RANGE then UINT32_RANGE - 1 else t
    else 1
  }

  function FirstFree(busy: seq<bool>, n: nat, from: nat): (i: nat)
    requires from <= n <= |busy|
    ensures from <= i <= n && (i < n ==> !busy[i]) && forall k :: from <= k < i ==> busy[k]
    decreases n - from
  {
    if from == n || !busy[from] then from else FirstFree(busy, n, from + 1)
  }

  /** The least free channel takes the descriptor; with none free nothing changes. */
  function Submit(s: Dma, d: Descriptor): (r: Dma)
    requires Shape(s)
  {
    var i := FirstFree(s.busy, s.numChannels, 0);
    if i == s.numChannels then s
    else s.(channels := s.channels[i := d.(status := InFlight)], busy := s.busy[i := true], active := s.active + 1)
  }

  function Prefetch(s: Dma, d: Descriptor): (r: Dma)
    requires Shape(s)
  {
    if s.count >= MAX_PREFETCH then s
    else s.(ring := s.ring[s.tail := d.(status := Pending)], tail := Slot(s.tail, 1), count := s.count + 1)
  }

  /** One cycle of channel `i`; the cycle counter wraps at 32 bits. */
  function TickChannel(s: Dma, i: nat): Dma
    requires Shape(s) && i < s.numChannels
  {
    var d := s.channels[i];
    if !s.busy[i] || d.status != InFlight then s
    else
      var c := (d.completeCycle + 1) % UINT32_RANGE;
      if c >= TransferCycles(s.bandwidth, s.numChannels, d.size) then
        s.(channels := s.channels[i := d.(completeCycle := c, status := Complete)],
           busy := s.busy[i := false],
           totalBytes := s.totalBytes + d.size, totalCycles := s.totalCycles + c,
           active := if s.active > 0 then s.active - 1 else UINT32_RANGE - 1)
      else s.(channels := s.channels[i := d.(completeCycle := c)])
  }

  function TickChannels(s: Dma, k: nat): (r: Dma)
    requires Shape(s) && k <= s.numChannels
    ensures Shape(r) && r.numChannels == s.numChannels
  {
    if k == 0 then s else TickChannel(TickChannels(s, k - 1), k - 1)
  }

  /** With a prefetch queued and a channel free, the oldest prefetch is submitted. */
  function Issue(s: Dma): Dma
    requires Shape(s)
  {
    if s.count > 0 && FirstFree(s.busy, s.numChannels, 0) < s.numChannels then
      Submit(s, s.ring[s.head]).(head := Slot(s.head, 1), count := s.count - 1)
    else s
  }

  function Tick(s: Dma): Dma
    requires Shape(s)
  {
    Issue(TickChannels(s, s.numChannels))
  }

  /** Clears the channels and the queue; the transfer totals stay. */
  function Reset(s: Dma): Dma {
    s.(channels := seq(MAX_CHANNELS, _ => NoTransfer), busy := seq(MAX_CHANNELS, _ => false), active := 0,
       head := 0, tail := 0, count := 0)
  }

  // ---------------------------------------------------------------- abstraction

  /** Queued prefetches, oldest first. */
  ghost function Contents(s: Dma): (r: seq<Descriptor>)
    requires Shape(s)
    ensures |r| == s.count && forall k :: 0 <= k < s.count ==> r[k] == s.ring[Slot(s.head, k)]
  {
    seq(s.count, k requires 0 <= k < s.count => s.ring[Slot(s.head, k)])
  }

  ghost function Bytes(ds: seq<Descriptor>): nat {
    if ds == [] then 0 else Bytes(ds[..|ds| - 1]) + ds[|ds| - 1].size
  }

  /** Bytes of the transfers on the first `k` channels that are under way. */
  ghost function BytesInFlight(s: Dma, k: nat): nat
    requires Shape(s) && k <= s.numChannels
  {
    if k == 0 then 0 else BytesInFlight(s, k - 1) + (if s.busy[k - 1] then s.channels[k - 1].size else 0)
  }

  /** Bytes moved, on their way, or waiting. */
  ghost function Ledger(s: Dma): nat
    requires Shape(s)
  {
    s.totalBytes + BytesInFlight(s, s.numChannels) + Bytes(Contents(s))
  }

  lemma {:induction false} BytesFront(d: Descriptor, ds: seq<Descriptor>)
    ensures Bytes([d] + ds) == d.size + Bytes(ds)
  {
    if ds == [] {
      assert [d] + ds == [d];
      assert Bytes([d]) == Bytes([d][..0]) + d.size;
    } else {
      assert ([d] + ds)[..|ds|] == [d] + ds[..|ds| - 1];
      BytesFront(d, ds[..|ds| - 1]);
    }
  }

  lemma {:induction false} BusyWithout(busy: seq<bool>, i: nat, b: bool, k: nat)
    requires i < |busy| && k <= |busy|
    ensures CountBusy(busy[i := b], k) ==
              CountBusy(busy, k) - (if i < k && busy[i] then 1 else 0) + (if i < k && b then 1 else 0)
  {
    if k > 0 { BusyWithout(busy, i, b, k - 1); }
  }

  lemma {:induction false} FlightWithout(s: Dma, t: Dma, i: nat, k: nat)
    requires Shape(s) && Shape(t) && k <= s.numChannels == t.numChannels && i < s.numChannels
    requires forall j :: 0 <= j < k && j != i ==> t.busy[j] == s.busy[j] && t.channels[j].size == s.channels[j].size
    ensures BytesInFlight(t, k) ==
              BytesInFlight(s, k) - (if i < k && s.busy[i] then s.channels[i].size else 0)
                                  + (if i < k && t.busy[i] then t.channels[i].size else 0)
  {
    if k > 0 { FlightWithout(s, t, i, k - 1); }
  }

  lemma {:induction false} NoneBusy(s: Dma, k: nat)
    requires Shape(s) && k <= s.numChannels
    ensures CountBusy(s.busy, k) == 0 <==> forall i :: 0 <= i < k ==> !s.busy[i]
    ensures CountBusy(s.busy, k) == 0 ==> BytesInFlight(s, k) == 0
  {
    if k > 0 { NoneBusy(s, k - 1); }
  }

  // ---------------------------------------------------------------- what single steps keep

  lemma SubmitKeeps(s: Dma, d: Descriptor)
    requires Consistent(s) && d.Fits()
    ensures Consistent(Submit(s, d)) && Contents(Submit(s, d)) == Contents(s)
    ensures FirstFree(s.busy, s.numChannels, 0) < s.numChannels ==>
              Ledger(Submit(s, d)) == Ledger(s) + d.size && Submit(s, d).active == s.active + 1
  {
    var i := FirstFree(s.busy, s.numChannels, 0);
    if i < s.numChannels {
      BusyWithout(s.busy, i, true, s.numChannels);
      FlightWithout(s, Submit(s, d), i, s.numChannels);
    }
  }

  /** The ring is a queue: an accepted prefetch goes to its end. */
  lemma PrefetchAppends(s: Dma, d: Descriptor)
    requires Consistent(s) && d.Fits()
    ensures Consistent(Prefetch(s, d))
    ensures Contents(Prefetch(s, d))
            == if s.count < MAX_PREFETCH then Contents(s) + [d.(status := Pending)] else Contents(s)
    ensures Ledger(Prefetch(s, d)) == Ledger(s) + (if s.count < MAX_PREFETCH then d.size else 0)
  {
    var t := Prefetch(s, d);
    FlightSame(s, t, s.numChannels);
    if s.count < MAX_PREFETCH {
      forall k | 0 <= k < s.count ensures Contents(t)[k] == Contents(s)[k] {
        assert Slot(s.head, k) != s.tail;
      }
      assert Contents(t) == Contents(s) + [d.(status := Pending)];
    }
  }

  /** The step in the fields it changes. */
  lemma {:induction false} PrefetchNext(s: Dma, d: Descriptor) returns (t: Dma)
    requires Consistent(s) && d.Fits()
    ensures t == Prefetch(s, d) && Consistent(t)
    ensures t == if s.count >= MAX_PREFETCH then s
                 else s.(ring := s.ring[s.tail := d.(status := Pending)], tail := (s.tail + 1) % MAX_PREFETCH,
                         count := s.count + 1)
  {
    t := Prefetch(s, d);
    PrefetchAppends(s, d);
    SlotIsMod(s.tail, 1);
  }

  lemma {:induction false} FlightSame(s: Dma, t: Dma, k: nat)
    requires Shape(s) && Shape(t) && k <= s.numChannels == t.numChannels
    requires s.busy == t.busy && s.channels == t.channels
    ensures BytesInFlight(t, k) == BytesInFlight(s, k)
  {
    if k > 0 { FlightSame(s, t, k - 1); }
  }

  lemma TickChannelKeeps(s: Dma, i: nat)
    requires Consistent(s) && i < s.numChannels
    ensures Consistent(TickChannel(s, i)) && Contents(TickChannel(s, i)) == Contents(s)
    ensures Ledger(TickChannel(s, i)) == Ledger(s)
    ensures forall j :: 0 <= j < MAX_CHANNELS && j != i ==>
              TickChannel(s, i).busy[j] == s.busy[j] && TickChannel(s, i).channels[j] == s.channels[j]
  {
    var t := TickChannel(s, i);
    FlightWithout(s, t, i, s.numChannels);
    BusyWithout(s.busy, i, false, s.numChannels);
  }

  /** From `s` to `t`, transfers advanced on the channels below `k` only. */
  ghost predicate Advanced(s: Dma, t: Dma, k: nat) {
    && Consistent(s) && Consistent(t) && SameFrom(s, t, k)
    && Contents(t) == Contents(s) && Ledger(t) == Ledger(s)
    && t.numChannels == s.numChannels && t.bandwidth == s.bandwidth && t.count == s.count
  }

  lemma AdvancedOne(s: Dma, i: nat)
    requires Consistent(s) && i < s.numChannels
    ensures Advanced(s, TickChannel(s, i), i + 1)
  {
    TickChannelKeeps(s, i);
  }

  lemma AdvancedTwice(s: Dma, m: Dma, t: Dma, i: nat, k: nat)
    requires Advanced(s, m, i) && Advanced(m, t, k) && i <= k
    ensures Advanced(s, t, k)
  {
  }

  lemma {:induction false} TickChannelsKeep(s: Dma, k: nat)
    requires Consistent(s) && k <= s.numChannels
    ensures Advanced(s, TickChannels(s, k), k)
  {
    if k > 0 {
      TickChannelsKeep(s, k - 1);
      AdvancedOne(TickChannels(s, k - 1), k - 1);
      AdvancedTwice(s, TickChannels(s, k - 1), TickChannels(s, k), k - 1, k);
    }
  }

  /** The channels from `k` on are as they were. */
  ghost predicate SameFrom(s: Dma, t: Dma, k: nat)
    requires Shape(s) && Shape(t)
  {
    forall j :: k <= j < MAX_CHANNELS ==> t.busy[j] == s.busy[j] && t.channels[j] == s.channels[j]
  }

  /** With a channel free, issuing takes the oldest prefetch off the queue. */
  lemma IssueShiftsQueue(s: Dma)
    requires Consistent(s) && s.count > 0 && FirstFree(s.busy, s.numChannels, 0) < s.numChannels
    ensures Consistent(Issue(s)) && Contents(Issue(s)) == Contents(s)[1..]
    ensures Issue(s).active == s.active + 1
  {
    var m := Submit(s, s.ring[s.head]);
    SubmitKeeps(s, s.ring[s.head]);
    DropHead(m);
  }

  lemma {:induction false} DropHead(s: Dma)
    requires Consistent(s) && s.count > 0
    ensures var t := s.(head := Slot(s.head, 1), count := s.count - 1);
            Consistent(t) && Contents(t) == Contents(s)[1..]
  {
    var t := s.(head := Slot(s.head, 1), count := s.count - 1);
    forall k | 0 <= k < t.count ensures Contents(t)[k] == Contents(s)[k + 1] {
      assert Slot(t.head, k) == Slot(s.head, k + 1);
    }
  }

  lemma IssueKeepsLedger(s: Dma)
    requires Consistent(s)
    ensures Consistent(Issue(s)) && Ledger(Issue(s)) == Ledger(s)
  {
    if s.count > 0 && FirstFree(s.busy, s.numChannels, 0) < s.numChannels {
      var m := Submit(s, s.ring[s.head]);
      SubmitKeeps(s, s.ring[s.head]);
      DropHeadLedger(m);
      DropHead(m);
    }
  }

  /** The step in the fields it changes. */
  lemma {:induction false} IssueNext(s: Dma) returns (t: Dma)
    requires Consistent(s)
    ensures t == Issue(s) && Consistent(t)
    ensures t == if s.count > 0 && FirstFree(s.busy, s.numChannels, 0) < s.numChannels
                 then Submit(s, s.ring[s.head]).(head := (s.head + 1) % MAX_PREFETCH, count := s.count - 1)
                 else s
  {
    t := Issue(s);
    IssueKeepsLedger(s);
    SlotIsMod(s.head, 1);
  }

  lemma DropHeadLedger(s: Dma)
    requires Consistent(s) && s.count > 0
    ensures var t := s.(head := Slot(s.head, 1), count := s.count - 1);
            Shape(t) && Ledger(t) + s.ring[s.head].size == Ledger(s)
  {
    var t := s.(head := Slot(s.head, 1), count := s.count - 1);
    DropHead(s);
    FlightSame(s, t, s.numChannels);
    assert Contents(s) == [s.ring[s.head]] + Contents(t);
    BytesFront(s.ring[s.head], Contents(t));
  }

  /** The prefetch taken is the one put on a channel; without a free channel nothing happens. */
  lemma IssueTakesOldest(s: Dma)
    requires Consistent(s)
    ensures s.count > 0 && s.active < s.numChannels ==>
              && Consistent(Issue(s)) && Contents(Issue(s)) == Contents(s)[1..] && Issue(s).active == s.active + 1
              && (exists i :: 0 <= i < s.numChannels && !s.busy[i] && Issue(s).busy[i]
                              && Issue(s).channels[i] == Contents(s)[0].(status := InFlight))
    ensures s.count == 0 || s.active == s.numChannels ==> Issue(s) == s
  {
    AllBusy(s.busy, s.numChannels);
    var i := FirstFree(s.busy, s.numChannels, 0);
    if s.count > 0 && i < s.numChannels {
      IssueShiftsQueue(s);
      assert Contents(s)[0] == s.ring[s.head];
      assert Issue(s).busy[i] && Issue(s).channels[i] == s.ring[s.head].(status := InFlight);
    }
  }

  lemma {:induction false} AllBusy(busy: seq<bool>, k: nat)
    requires k <= |busy|
    ensures CountBusy(busy, k) <= k
    ensures CountBusy(busy, k) == k <==> forall i :: 0 <= i < k ==> busy[i]
  {
    if k > 0 { AllBusy(busy, k - 1); }
  }

  /** A tick moves bytes along without creating or losing any, and issues in order. */
  lemma TickKeeps(s: Dma)
    requires Consistent(s)
    ensures Consistent(Tick(s)) && Ledger(Tick(s)) == Ledger(s)
    ensures Tick(s).numChannels == s.numChannels && Tick(s).bandwidth == s.bandwidth
    ensures Contents(Tick(s)) == Contents(s) || (s.count > 0 && Contents(Tick(s)) == Contents(s)[1..])
  {
    TickChannelsKeep(s, s.numChannels);
    IssueKeepsLedger(TickChannels(s, s.numChannels));
    IssueTakesOldest(TickChannels(s, s.numChannels));
    AllBusy(TickChannels(s, s.numChannels).busy, s.numChannels);
  }

  lemma ResetKeeps(s: Dma)
    requires Shape(s)
    ensures Consistent(Reset(s)) && Contents(Reset(s)) == [] && Ledger(Reset(s)) == s.totalBytes
  {
    var t := Reset(s);
    NothingBusy(t.busy, t.numChannels);
    NoneBusy(t, t.numChannels);
  }

  lemma {:induction false} NothingBusy(busy: seq<bool>, k: nat)
    requires k <= |busy| && forall i :: 0 <= i < k ==> !busy[i]
    ensures CountBusy(busy, k) == 0
  {
    if k > 0 { NothingBusy(busy, k - 1); }
  }

  // ---------------------------------------------------------------- runs

  datatype Op = DoSubmit(d: Descriptor) | DoPrefetch(d: Descriptor) | DoTick | DoReset

  ghost predicate Legal(ops: seq<Op>) {
    forall i :: 0 <= i < |ops| && (ops[i].DoSubmit? || ops[i].DoPrefetch?) ==> ops[i].d.Fits()
  }

  function Step(s: Dma, op: Op): Dma
    requires Shape(s)
  {
    match op
    case DoSubmit(d) => Submit(s, d)
    case DoPrefetch(d) => Prefetch(s, d)
    case DoTick => Tick(s)
    case DoReset => Reset(s)
  }

  /** Bytes the engine takes charge of in one step, and bytes it forgets. */
  ghost function Accepted(s: Dma, op: Op): nat
    requires Shape(s)
  {
    match op
    case DoSubmit(d) => if FirstFree(s.busy, s.numChannels, 0) < s.numChannels then d.size else 0
    case DoPrefetch(d) => if s.count < MAX_PREFETCH then d.size else 0
    case DoTick => 0
    case DoReset => 0
  }

  ghost function Forgotten(s: Dma, op: Op): nat
    requires Shape(s)
  {
    if op.DoReset? then BytesInFlight(s, s.numChannels) + Bytes(Contents(s)) else 0
  }

  lemma StepKeeps(s: Dma, op: Op)
    requires Consistent(s) && Legal([op])
    ensures Consistent(Step(s, op))
    ensures Ledger(Step(s, op)) + Forgotten(s, op) == Ledger(s) + Accepted(s, op)
  {
    assert [op][0] == op;
    match op
    case DoSubmit(d) => SubmitKeeps(s, d);
    case DoPrefetch(d) => PrefetchAppends(s, d);
    case DoTick => TickKeeps(s);
    case DoReset => ResetKeeps(s);
  }

  ghost function Run(s: Dma, ops: seq<Op>): (r: Dma)
    requires Consistent(s) && Legal(ops)
    ensures Consistent(r)
  {
    if ops == [] then s
    else
      var m := Run(s, ops[..|ops| - 1]);
      StepKeeps(m, ops[|ops| - 1]);
      Step(m, ops[|ops| - 1])
  }

  ghost function AcceptedInRun(s: Dma, ops: seq<Op>): nat
    requires Consistent(s) && Legal(ops)
  {
    if ops == [] then 0
    else AcceptedInRun(s, ops[..|ops| - 1]) + Accepted(Run(s, ops[..|ops| - 1]), ops[|ops| - 1])
  }

  ghost function ForgottenInRun(s: Dma, ops: seq<Op>): nat
    requires Consistent(s) && Legal(ops)
  {
    if ops == [] then 0
    else ForgottenInRun(s, ops[..|ops| - 1]) + Forgotten(Run(s, ops[..|ops| - 1]), ops[|ops| - 1])
  }

  /** Over any run: bytes moved, in flight, queued and forgotten are those there were plus those accepted. */
  lemma {:induction false} RunConservesBytes(s: Dma, ops: seq<Op>)
    requires Consistent(s) && Legal(ops)
    ensures Ledger(Run(s, ops)) + ForgottenInRun(s, ops) == Ledger(s) + AcceptedInRun(s, ops)
  {
    if ops != [] {
      RunConservesBytes(s, ops[..|ops| - 1]);
      StepKeeps(Run(s, ops[..|ops| - 1]), ops[|ops| - 1]);
    }
  }

  lemma {:induction false} NoResetForgetsNothing(s: Dma, ops: seq<Op>)
    requires Consistent(s) && Legal(ops) && DoReset !in ops
    ensures ForgottenInRun(s, ops) == 0
  {
    if ops != [] {
      assert ops[|ops| - 1] in ops;
      NoResetForgetsNothing(s, ops[..|ops| - 1]);
    }
  }

  /** From a reset on, growth of the byte total plus what is in flight or queued is what was accepted. */
  lemma SinceResetConserved(s: Dma, ops: seq<Op>)
    requires Consistent(s) && Legal(ops) && DoReset !in ops
    ensures Consistent(Reset(s))
    ensures var t := Run(Reset(s), ops);
            t.totalBytes - s.totalBytes + BytesInFlight(t, t.numChannels) + Bytes(Contents(t))
              == AcceptedInRun(Reset(s), ops)
  {
    ResetKeeps(s);
    RunConservesBytes(Reset(s), ops);
    NoResetForgetsNothing(Reset(s), ops);
  }

  /** Prefetches accepted by one step, and the prefetch issued by it. */
  ghost function Enqueued(s: Dma, op: Op): seq<Descriptor>
    requires Shape(s)
  {
    if op.DoPrefetch? && s.count < MAX_PREFETCH then [op.d.(status := Pending)] else []
  }

  ghost function Issued(s: Dma, op: Op): seq<Descriptor>
    requires Consistent(s)
  {
    TickChannelsKeep(s, s.numChannels);
    if op.DoTick? && Tick(s).count < s.count then [Contents(s)[0]] else []
  }

  ghost function EnqueuedInRun(s: Dma, ops: seq<Op>): seq<Descriptor>
    requires Consistent(s) && Legal(ops)
  {
    if ops == [] then []
    else EnqueuedInRun(s, ops[..|ops| - 1]) + Enqueued(Run(s, ops[..|ops| - 1]), ops[|ops| - 1])
  }

  ghost function IssuedInRun(s: Dma, ops: seq<Op>): seq<Descriptor>
    requires Consistent(s) && Legal(ops)
  {
    if ops == [] then []
    else IssuedInRun(s, ops[..|ops| - 1]) + Issued(Run(s, ops[..|ops| - 1]), ops[|ops| - 1])
  }

  /** First in, first out: what was issued, then what still waits, is what waited, then what came in. */
  lemma {:induction false} PrefetchesAreFifo(s: Dma, ops: seq<Op>)
    requires Consistent(s) && Legal(ops) && DoReset !in ops
    ensures IssuedInRun(s, ops) + Contents(Run(s, ops)) == Contents(s) + EnqueuedInRun(s, ops)
  {
    if ops != [] {
      var front, op := ops[..|ops| - 1], ops[|ops| - 1];
      assert op in ops;
      PrefetchesAreFifo(s, front);
      StepIsFifo(Run(s, front), op);
      var m := Run(s, front);
      Splice(IssuedInRun(s, front), Issued(m, op), Contents(Run(s, ops)), Contents(m),
             Contents(s), EnqueuedInRun(s, front), Enqueued(m, op));
    }
  }

  lemma Splice<T>(out: seq<T>, out': seq<T>, rest': seq<T>, rest: seq<T>, start: seq<T>, into: seq<T>, into': seq<T>)
    requires out + rest == start + into && out' + rest' == rest + into'
    ensures (out + out') + rest' == start + (into + into')
  {
    assert (out + out') + rest' == out + (out' + rest');
    assert out + (rest + into') == (out + rest) + into';
    assert (start + into) + into' == start + (into + into');
  }

  lemma StepIsFifo(s: Dma, op: Op)
    requires Consistent(s) && Legal([op]) && !op.DoReset?
    ensures Consistent(Step(s, op))
    ensures Issued(s, op) + Contents(Step(s, op)) == Contents(s) + Enqueued(s, op)
  {
    assert [op][0] == op;
    StepKeeps(s, op);
    match op
    case DoSubmit(d) => SubmitKeeps(s, d);
    case DoPrefetch(d) => PrefetchAppends(s, d);
    case DoTick => TickIsFifo(s, Tick(s));
  }

  lemma {:induction false} TickIsFifo(s: Dma, t: Dma)
    requires Consistent(s) && t == Tick(s)
    ensures Consistent(t) && Issued(s, DoTick) + Contents(t) == Contents(s)
  {
    TickKeeps(s);
    if t.count < s.count {
      assert Contents(s) == [Contents(s)[0]] + Contents(s)[1..];
    } else {
      assert Contents(t) == Contents(s) && Issued(s, DoTick) == [];
    }
  }

  // ---------------------------------------------------------------- draining

  /** Ticks a channel at count `c` still needs; a counter at its maximum wraps to zero first. */
  ghost function TicksLeft(c: nat, cycles: nat): nat {
    if c == UINT32_RANGE - 1 then cycles + 1
    else if c < cycles then cycles - c
    else 1
  }

  ghost function Remaining(s: Dma, i: nat): nat
    requires Shape(s) && i < s.numChannels
  {
    if s.busy[i]
    then TicksLeft(s.channels[i].completeCycle, TransferCycles(s.bandwidth, s.numChannels, s.channels[i].size))
    else 0
  }

  ghost function RemainingOn(s: Dma, k: nat): nat
    requires Shape(s) && k <= s.numChannels
  {
    if k == 0 then 0
    else RemainingOn(s, k - 1) + Remaining(s, k - 1)
  }

  lemma {:induction false} RemainingSame(s: Dma, t: Dma, k: nat)
    requires Shape(s) && Shape(t) && k <= s.numChannels == t.numChannels && s.bandwidth == t.bandwidth
    requires forall j :: 0 <= j < k ==> t.busy[j] == s.busy[j] && t.channels[j] == s.channels[j]
    ensures RemainingOn(t, k) == RemainingOn(s, k)
  {
    if k > 0 { RemainingSame(s, t, k - 1); }
  }

  /** Every busy channel gets one tick nearer to completion. */
  lemma {:induction false} TickChannelsProgress(s: Dma, t: Dma, k: nat)
    requires Consistent(s) && k <= s.numChannels && t == TickChannels(s, k)
    ensures RemainingOn(t, k) + CountBusy(s.busy, k) == RemainingOn(s, k)
    decreases k
  {
    if k > 0 {
      var m := TickChannels(s, k - 1);
      TickChannelsKeep(s, k - 1);
      assert m.busy[k - 1] == s.busy[k - 1] && m.channels[k - 1] == s.channels[k - 1];
      assert RemainingOn(m, k) + CountBusy(s.busy, k - 1) == RemainingOn(s, k) by {
        TickChannelsProgress(s, m, k - 1);
        assert Remaining(m, k - 1) == Remaining(s, k - 1);
      }
      TickChannelProgress(m, t, k - 1);
    }
  }

  lemma {:induction false} TickChannelProgress(s: Dma, t: Dma, i: nat)
    requires Consistent(s) && i < s.numChannels && t == TickChannel(s, i)
    ensures RemainingOn(t, i + 1) + (if s.busy[i] then 1 else 0) == RemainingOn(s, i + 1)
  {
    TickChannelKeeps(s, i);
    RemainingSame(s, t, i);
    ChannelTicks(s, i);
  }

  lemma {:induction false} ChannelTicks(s: Dma, i: nat)
    requires Consistent(s) && i < s.numChannels
    ensures var t := TickChannel(s, i);
            Shape(t) && i < t.numChannels && Remaining(t, i) + (if s.busy[i] then 1 else 0) == Remaining(s, i)
  {
    OneTickLess(s.channels[i].completeCycle, TransferCycles(s.bandwidth, s.numChannels, s.channels[i].size));
  }

  lemma {:induction false} OneTickLess(c: nat, cycles: nat)
    requires c < UINT32_RANGE && 1 <= cycles < UINT32_RANGE
    ensures var c' := (c + 1) % UINT32_RANGE;
            && (c' >= cycles ==> TicksLeft(c, cycles) == 1)
            && (c' < cycles ==> TicksLeft(c', cycles) + 1 == TicksLeft(c, cycles))
  {
    if c == UINT32_RANGE - 1 {
      assert (c + 1) % UINT32_RANGE == 0;
    } else {
      assert (c + 1) % UINT32_RANGE == c + 1;
    }
  }

  /** A tick of a busy engine issues a prefetch, or else brings the transfers nearer to their end. */
  lemma TickProgresses(s: Dma)
    requires Consistent(s) && s.active > 0
    ensures Consistent(Tick(s)) && Tick(s).numChannels == s.numChannels
    ensures Tick(s).count < s.count ||
            (Tick(s).count == s.count && RemainingOn(Tick(s), s.numChannels) < RemainingOn(s, s.numChannels))
    ensures Tick(s).active == 0 ==> Tick(s).count == 0
  {
    TickKeeps(s);
    TickChannelsKeep(s, s.numChannels);
    var m := TickChannels(s, s.numChannels);
    TickChannelsProgress(s, m, s.numChannels);
    IssueTakesOldest(m);
    AllBusy(s.busy, s.numChannels);
    AllBusy(m.busy, m.numChannels);
  }

  /** Ticking until no transfer is active. */
  ghost function WaitAll(s: Dma): (r: Dma)
    requires Consistent(s)
    ensures Consistent(r)
    decreases s.count, RemainingOn(s, s.numChannels)
  {
    if s.active == 0 then s
    else
      TickProgresses(s);
      WaitAll(Tick(s))
  }

  /** Entered busy, draining leaves nothing active or queued and has moved every byte. */
  lemma {:induction false} WaitAllDrains(s: Dma)
    requires Consistent(s) && s.active > 0
    ensures var t := WaitAll(s);
            && t.active == 0 && t.count == 0 && (forall i :: 0 <= i < t.numChannels ==> !t.busy[i])
            && t.totalBytes == s.totalBytes + BytesInFlight(s, s.numChannels) + Bytes(Contents(s))
    decreases s.count, RemainingOn(s, s.numChannels)
  {
    TickProgresses(s);
    TickKeeps(s);
    var t := Tick(s);
    if t.active > 0 {
      WaitAllDrains(t);
    } else {
      NoneBusy(t, t.numChannels);
      assert Contents(t) == [];
    }
  }

  /** Draining empties the queue exactly when it is entered busy or finds the queue empty. */
  lemma WaitAllEmptiesQueueIff(s: Dma)
    requires Consistent(s)
    ensures WaitAll(s).count == 0 <==> s.active > 0 || s.count == 0
    ensures s.active == 0 ==> WaitAll(s) == s
  {
    if s.active > 0 { WaitAllDrains(s); }
  }
}
