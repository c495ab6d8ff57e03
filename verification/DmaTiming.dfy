/**
 How long a transfer takes on the DMA engine, and what one tick does to each channel.
 */
module DmaTiming {
  import opened DmaSpec

  // ---------------------------------------------------------------- the duration of a transfer

  /**
   `t` ticks is the size over the channel's share of the bandwidth, rounded down, but at least one tick and at most the
   largest 32-bit count; without bandwidth it is one.
   */
  ghost predicate Takes(bandwidth: real, numChannels: nat, size: nat, t: nat) {
    if bandwidth <= 0.0 || (size * numChannels) as real < bandwidth then t == 1
    else if (size * numChannels) as real >= 4294967295.0 * bandwidth then t == 4294967295
    else Fills(bandwidth, (size * numChannels) as real, t)
  }

  /** The work takes at least `t` ticks at this rate, and less than one more. */
  ghost predicate Fills(bandwidth: real, work: real, t: int) {
    t as real * bandwidth <= work < (t + 1) as real * bandwidth
  }

  lemma {:induction false} TransferCyclesTakes(bandwidth: real, numChannels: nat, size: nat)
    requires numChannels > 0
    ensures Takes(bandwidth, numChannels, size, TransferCycles(bandwidth, numChannels, size))
  {
    if bandwidth > 0.0 {
      var work := (size * numChannels) as real;
      var ticks := size as real / (bandwidth / numChannels as real);
      ShareOfBandwidth(bandwidth, numChannels as real, size as real, ticks);
      assert work == size as real * numChannels as real;
      Clamped(bandwidth, work, ticks, ticks.Floor, TransferCycles(bandwidth, numChannels, size));
    }
  }

  lemma {:induction false} ShareOfBandwidth(bandwidth: real, n: real, size: real, ticks: real)
    requires bandwidth > 0.0 && n > 0.0 && ticks == size / (bandwidth / n)
    ensures ticks * bandwidth == size * n
  {
    var share := bandwidth / n;
    assert share * n == bandwidth && ticks * share == size;
    assert ticks * (share * n) == ticks * share * n;
  }

  lemma {:induction false} Clamped(bandwidth: real, work: real, ticks: real, n: int, t: nat)
    requires bandwidth > 0.0 && ticks * bandwidth == work && ticks >= 0.0 && n == ticks.Floor
    requires t == if n < 1 then 1 else if n >= 4294967296 then 4294967295 else n
    ensures if work < bandwidth then t == 1
            else if work >= 4294967295.0 * bandwidth then t == 4294967295 else Fills(bandwidth, work, t)
  {
    FloorBounds(bandwidth, ticks, work, n);
    Below(bandwidth, ticks, work, 1.0, bandwidth);
    Below(bandwidth, ticks, work, 4294967295.0, 4294967295.0 * bandwidth);
    ClampedCount(bandwidth, work, 4294967295.0 * bandwidth, ticks, n, t);
  }

  lemma {:induction false} Below(bandwidth: real, ticks: real, work: real, limit: real, most: real)
    requires bandwidth > 0.0 && ticks * bandwidth == work && limit * bandwidth == most
    ensures ticks < limit <==> work < most
  {
    Scaled(bandwidth, ticks, limit);
  }

  lemma ClampedCount(bandwidth: real, work: real, most: real, ticks: real, n: int, t: nat)
    requires (ticks < 1.0 <==> work < bandwidth) && (ticks < 4294967295.0 <==> work < most) && n == ticks.Floor
    requires t == if n < 1 then 1 else if n >= 4294967296 then 4294967295 else n
    ensures if work < bandwidth then t == 1 else if work >= most then t == 4294967295 else t == n
  {
  }

  lemma Scaled(bandwidth: real, x: real, y: real)
    requires bandwidth > 0.0
    ensures x < y <==> x * bandwidth < y * bandwidth
    ensures x <= y <==> x * bandwidth <= y * bandwidth
  {
    assert y * bandwidth - x * bandwidth == (y - x) * bandwidth;
    if x < y {
      assert (y - x) * bandwidth > 0.0;
    } else if x > y {
      assert (x - y) * bandwidth > 0.0;
      assert (y - x) * bandwidth == -((x - y) * bandwidth);
    }
  }

  lemma {:induction false} FloorBounds(bandwidth: real, ticks: real, work: real, n: int)
    requires bandwidth > 0.0 && ticks * bandwidth == work && n == ticks.Floor
    ensures Fills(bandwidth, work, n)
  {
    Scaled(bandwidth, n as real, ticks);
    Scaled(bandwidth, ticks, (n + 1) as real);
  }

  /** No other number of ticks meets the inequality. */
  lemma {:induction false} TakesIsUnique(bandwidth: real, numChannels: nat, size: nat, t: nat, u: nat)
    requires Takes(bandwidth, numChannels, size, t) && Takes(bandwidth, numChannels, size, u)
    ensures t == u
  {
    if bandwidth > 0.0 {
      NotLater(bandwidth, (size * numChannels) as real, t, u);
      NotLater(bandwidth, (size * numChannels) as real, u, t);
    }
  }

  lemma {:induction false} NotLater(bandwidth: real, work: real, t: nat, u: nat)
    requires bandwidth > 0.0
    ensures Fills(bandwidth, work, t) && Fills(bandwidth, work, u) ==> u <= t
  {
    if t < u {
      Scaled(bandwidth, (t + 1) as real, u as real);
    }
  }

  // ---------------------------------------------------------------- one tick, channel by channel

  function Counted(c: nat): nat {
    (c + 1) % UINT32_RANGE
  }

  /** The transfer on channel `i` has not come to its end by the next tick. */
  predicate Stays(s: Dma, i: nat)
    requires Shape(s) && i < s.numChannels
  {
    s.busy[i] && Counted(s.channels[i].completeCycle) < TransferCycles(s.bandwidth, s.numChannels, s.channels[i].size)
  }

  /** Channel `i` when transfers have advanced and no prefetch is issued yet. */
  function Advance(s: Dma, i: nat): Descriptor
    requires Shape(s) && i < s.numChannels
  {
    var d := s.channels[i];
    if !s.busy[i] then d
    else d.(completeCycle := Counted(d.completeCycle), status := if Stays(s, i) then InFlight else Complete)
  }

  lemma {:induction false} ChannelAdvances(s: Dma, i: nat, r: Dma)
    requires Consistent(s) && i < s.numChannels && r == TickChannel(s, i)
    ensures Shape(r) && r.channels[i] == Advance(s, i) && r.busy[i] == Stays(s, i)
    ensures r.totalCycles == s.totalCycles
                             + (if s.busy[i] && !Stays(s, i) then Counted(s.channels[i].completeCycle) else 0)
    ensures r.totalBytes == s.totalBytes + (if s.busy[i] && !Stays(s, i) then s.channels[i].size else 0)
  {
  }

  lemma {:induction false} SameAdvance(s: Dma, m: Dma, i: nat)
    requires Shape(s) && Shape(m) && i < s.numChannels == m.numChannels && s.bandwidth == m.bandwidth
    requires s.busy[i] == m.busy[i] && s.channels[i] == m.channels[i]
    ensures Stays(s, i) == Stays(m, i) && Advance(s, i) == Advance(m, i)
  {
  }

  /** Channels advance independently of each other. */
  lemma {:induction false} ChannelsAdvance(s: Dma, k: nat, m: Dma, i: nat)
    requires Consistent(s) && i < k <= s.numChannels && m == TickChannels(s, k)
    ensures Shape(m) && m.channels[i] == Advance(s, i) && m.busy[i] == Stays(s, i)
    decreases k
  {
    var before := TickChannels(s, k - 1);
    TickChannelsKeep(s, k - 1);
    TickChannelKeeps(before, k - 1);
    if i == k - 1 {
      LastAdvances(s, i, before, m);
    } else {
      ChannelsAdvance(s, k - 1, before, i);
    }
  }

  lemma {:induction false} LastAdvances(s: Dma, i: nat, before: Dma, m: Dma)
    requires Consistent(s) && i < s.numChannels && before == TickChannels(s, i) && m == TickChannel(before, i)
    ensures Shape(m) && m.channels[i] == Advance(s, i) && m.busy[i] == Stays(s, i)
  {
    TickChannelsKeep(s, i);
    SameAdvance(s, before, i);
    ChannelAdvances(before, i, m);
  }

  /** The oldest prefetch goes to the first channel that is free once transfers have advanced, and to no other. */
  ghost predicate Receives(s: Dma, i: nat)
    requires Shape(s) && i < s.numChannels
  {
    s.count > 0 && !Stays(s, i) && forall j: nat :: j < i ==> Stays(s, j)
  }

  /** What one tick makes of each channel. */
  lemma {:induction false} TickPerChannel(s: Dma, r: Dma, i: nat)
    requires Consistent(s) && i < s.numChannels && r == Tick(s)
    ensures Shape(r)
    ensures r.busy[i] == (Stays(s, i) || Receives(s, i))
    ensures r.channels[i] == if Receives(s, i) then Contents(s)[0].(status := InFlight) else Advance(s, i)
  {
    var m := TickChannels(s, s.numChannels);
    TickChannelsKeep(s, s.numChannels);
    TickKeeps(s);
    forall j: nat | j < s.numChannels ensures m.busy[j] == Stays(s, j) && m.channels[j] == Advance(s, j) {
      ChannelsAdvance(s, s.numChannels, m, j);
    }
    if s.count > 0 {
      assert m.ring[m.head] == Contents(m)[0] == Contents(s)[0];
    }
  }

  /** The queue gets shorter by one exactly when some channel receives its oldest entry. */
  lemma {:induction false} TickTakesOne(s: Dma, r: Dma)
    requires Consistent(s) && r == Tick(s)
    ensures Consistent(r)
    ensures if exists i: nat :: i < s.numChannels && Receives(s, i) then s.count > 0 && Contents(r) == Contents(s)[1..]
            else Contents(r) == Contents(s)
  {
    var m := TickChannels(s, s.numChannels);
    TickChannelsKeep(s, s.numChannels);
    TickKeeps(s);
    forall j: nat | j < s.numChannels ensures m.busy[j] == Stays(s, j) {
      ChannelsAdvance(s, s.numChannels, m, j);
    }
    var f := FirstFree(m.busy, m.numChannels, 0);
    if s.count > 0 && f < s.numChannels {
      assert Receives(s, f);
      IssueShiftsQueue(m);
    } else {
      assert forall i: nat :: i < s.numChannels && s.count > 0 ==> Stays(s, i);
    }
  }

  // ---------------------------------------------------------------- a transfer from submission to completion

  ghost function Ticks(s: Dma, k: nat): (r: Dma)
    requires Consistent(s)
    ensures Consistent(r) && r.numChannels == s.numChannels && r.bandwidth == s.bandwidth
  {
    if k == 0 then s
    else
      var m := Ticks(s, k - 1);
      TickKeeps(m);
      Tick(m)
  }

  lemma {:induction false} TicksNext(s: Dma, k: nat)
    requires Consistent(s)
    ensures Ticks(s, k + 1) == Tick(Ticks(s, k))
  {
  }

  /** Busy channel `i` holds `d` with `c` ticks counted. */
  ghost predicate Flies(s: Dma, i: nat, d: Descriptor, c: nat) {
    Shape(s) && i < s.numChannels && s.busy[i] && s.channels[i] == d.(completeCycle := c, status := InFlight)
  }

  /** After its last tick the channel holds it complete and is free, unless the tick gives it to the oldest prefetch. */
  ghost predicate Lands(m: Dma, r: Dma, i: nat, d: Descriptor, t: nat) {
    && Shape(m) && Shape(r) && i < m.numChannels
    && Advance(m, i) == d.(completeCycle := t, status := Complete)
    && if Receives(m, i) then r.busy[i] && r.channels[i] == Contents(m)[0].(status := InFlight)
       else !r.busy[i] && r.channels[i] == d.(completeCycle := t, status := Complete)
  }

  lemma {:induction false} FliesOn(m: Dma, r: Dma, i: nat, d: Descriptor, c: nat, t: nat)
    requires Consistent(m) && r == Tick(m) && Flies(m, i, d, c) && Takes(m.bandwidth, m.numChannels, d.size, t) && c < t
    ensures c + 1 < t ==> Flies(r, i, d, c + 1)
    ensures c + 1 == t ==> Lands(m, r, i, d, t)
  {
    TransferCyclesTakes(m.bandwidth, m.numChannels, d.size);
    TakesIsUnique(m.bandwidth, m.numChannels, d.size, t, TransferCycles(m.bandwidth, m.numChannels, d.size));
    TickPerChannel(m, r, i);
  }

  /** It is in flight until as many ticks are counted as it takes. */
  lemma {:induction false} StaysInFlight(s: Dma, i: nat, d: Descriptor, c: nat, t: nat, k: nat, r: Dma)
    requires Consistent(s) && Flies(s, i, d, c) && Takes(s.bandwidth, s.numChannels, d.size, t) && c + k < t
    requires r == Ticks(s, k)
    ensures Flies(r, i, d, c + k)
    decreases k
  {
    if k > 0 {
      StaysInFlight(s, i, d, c, t, k - 1, Ticks(s, k - 1));
      FliesOn(Ticks(s, k - 1), r, i, d, c + k - 1, t);
    }
  }

  /** It comes to its end with exactly that tick. */
  lemma {:induction false} CompletesAfter(s: Dma, i: nat, d: Descriptor, c: nat, t: nat, k: nat, m: Dma, r: Dma)
    requires Consistent(s) && Flies(s, i, d, c) && Takes(s.bandwidth, s.numChannels, d.size, t) && c + k + 1 == t
    requires m == Ticks(s, k) && r == Tick(m)
    ensures Lands(m, r, i, d, t)
  {
    StaysInFlight(s, i, d, c, t, k, m);
    FliesOn(m, r, i, d, c + k, t);
  }

  /** A transfer accepted with no ticks counted is in flight for all but the last of its ticks, and then complete. */
  lemma {:induction false} SubmittedTakes(s: Dma, d: Descriptor, t: nat) returns (i: nat, last: nat)
    requires Consistent(s) && d.Fits() && d.completeCycle == 0 && s.active < s.numChannels
    requires Takes(s.bandwidth, s.numChannels, d.size, t)
    ensures i < s.numChannels && !s.busy[i] && Consistent(Submit(s, d))
    ensures last + 1 == t && FliesFor(Submit(s, d), i, d, t)
    ensures Lands(Ticks(Submit(s, d), last), Ticks(Submit(s, d), t), i, d, t)
  {
    i := SubmittedFlies(s, d);
    last := TakesSome(s.bandwidth, s.numChannels, d.size, t);
    FlightOf(Submit(s, d), i, d, t);
    LandingOf(Submit(s, d), i, d, t, last, Ticks(Submit(s, d), last), Ticks(Submit(s, d), t));
  }

  /** After each of the ticks before number `t` the transfer is in flight with that many ticks counted. */
  ghost predicate FliesFor(u: Dma, i: nat, d: Descriptor, t: nat)
    requires Consistent(u)
  {
    forall k: nat :: k < t ==> Flies(Ticks(u, k), i, d, k)
  }

  lemma {:induction false} SubmittedFlies(s: Dma, d: Descriptor) returns (i: nat)
    requires Consistent(s) && d.Fits() && d.completeCycle == 0 && s.active < s.numChannels
    ensures i < s.numChannels && !s.busy[i] && Consistent(Submit(s, d)) && Flies(Submit(s, d), i, d, 0)
    ensures Submit(s, d).bandwidth == s.bandwidth && Submit(s, d).numChannels == s.numChannels
  {
    AllBusy(s.busy, s.numChannels);
    i := FirstFree(s.busy, s.numChannels, 0);
    SubmitKeeps(s, d);
  }

  lemma {:induction false} TakesSome(bandwidth: real, numChannels: nat, size: nat, t: nat) returns (last: nat)
    requires numChannels > 0 && Takes(bandwidth, numChannels, size, t)
    ensures last + 1 == t
  {
    last := TransferCycles(bandwidth, numChannels, size) - 1;
    TransferCyclesTakes(bandwidth, numChannels, size);
    TakesIsUnique(bandwidth, numChannels, size, t, TransferCycles(bandwidth, numChannels, size));
  }

  lemma {:induction false} FlightOf(u: Dma, i: nat, d: Descriptor, t: nat)
    requires Consistent(u) && Flies(u, i, d, 0) && Takes(u.bandwidth, u.numChannels, d.size, t)
    ensures FliesFor(u, i, d, t)
  {
    forall k: nat | k < t ensures Flies(Ticks(u, k), i, d, k) {
      StaysInFlight(u, i, d, 0, t, k, Ticks(u, k));
    }
  }

  lemma {:induction false} LastTick(u: Dma, t: nat, last: nat, m: Dma, r: Dma)
    requires Consistent(u) && last + 1 == t && m == Ticks(u, last) && r == Ticks(u, t)
    ensures r == Tick(m)
  {
    TicksNext(u, last);
  }

  lemma {:induction false} LandingOf(u: Dma, i: nat, d: Descriptor, t: nat, last: nat, m: Dma, r: Dma)
    requires Consistent(u) && Flies(u, i, d, 0) && Takes(u.bandwidth, u.numChannels, d.size, t)
    requires last + 1 == t && m == Ticks(u, last) && r == Ticks(u, t)
    ensures Lands(m, r, i, d, t)
  {
    LastTick(u, t, last, m, r);
    CompletesAfter(u, i, d, 0, t, last, m, r);
  }

  // ---------------------------------------------------------------- the totals

  /** Ticks counted by the transfers on the first `k` channels that come to their end with the next tick. */
  ghost function LandingTicks(s: Dma, k: nat): nat
    requires Shape(s) && k <= s.numChannels
  {
    if k == 0 then 0
    else
      LandingTicks(s, k - 1)
      + (if s.busy[k - 1] && !Stays(s, k - 1) then Counted(s.channels[k - 1].completeCycle) else 0)
  }

  ghost function LandingBytes(s: Dma, k: nat): nat
    requires Shape(s) && k <= s.numChannels
  {
    if k == 0 then 0
    else LandingBytes(s, k - 1) + (if s.busy[k - 1] && !Stays(s, k - 1) then s.channels[k - 1].size else 0)
  }

  lemma {:induction false} ChannelsAdd(s: Dma, k: nat, m: Dma)
    requires Consistent(s) && k <= s.numChannels && m == TickChannels(s, k)
    ensures m.totalCycles == s.totalCycles + LandingTicks(s, k)
    ensures m.totalBytes == s.totalBytes + LandingBytes(s, k)
    decreases k
  {
    if k > 0 {
      var before := TickChannels(s, k - 1);
      ChannelsAdd(s, k - 1, before);
      ChannelAdds(s, k - 1, before, m);
    }
  }

  lemma {:induction false} ChannelAdds(s: Dma, j: nat, before: Dma, m: Dma)
    requires Consistent(s) && j < s.numChannels && before == TickChannels(s, j) && m == TickChannel(before, j)
    ensures m.totalCycles == before.totalCycles
                             + (if s.busy[j] && !Stays(s, j) then Counted(s.channels[j].completeCycle) else 0)
    ensures m.totalBytes == before.totalBytes + (if s.busy[j] && !Stays(s, j) then s.channels[j].size else 0)
  {
    TickChannelsKeep(s, j);
    SameAdvance(s, before, j);
    ChannelAdvances(before, j, m);
  }

  /** A tick adds to the totals the sizes and counts of the transfers that it completes, and nothing else. */
  lemma {:induction false} TickAdds(s: Dma, r: Dma)
    requires Consistent(s) && r == Tick(s)
    ensures r.totalCycles == s.totalCycles + LandingTicks(s, s.numChannels)
    ensures r.totalBytes == s.totalBytes + LandingBytes(s, s.numChannels)
  {
    ChannelsAdd(s, s.numChannels, TickChannels(s, s.numChannels));
    TickChannelsKeep(s, s.numChannels);
  }

  /** Only channel `i` is busy, and nothing is queued. */
  ghost predicate Alone(s: Dma, i: nat) {
    && Consistent(s) && i < s.numChannels && s.count == 0
    && forall j :: 0 <= j < s.numChannels ==> s.busy[j] == (j == i)
  }

  lemma {:induction false} LandingAlone(s: Dma, i: nat, k: nat)
    requires Alone(s, i) && k <= s.numChannels
    ensures LandingTicks(s, k) == if i < k && !Stays(s, i) then Counted(s.channels[i].completeCycle) else 0
    ensures LandingBytes(s, k) == if i < k && !Stays(s, i) then s.channels[i].size else 0
  {
    if k > 0 {
      LandingAlone(s, i, k - 1);
    }
  }

  lemma {:induction false} AloneTick(m: Dma, r: Dma, i: nat)
    requires Alone(m, i) && r == Tick(m)
    ensures Consistent(r) && r.count == 0 && r.numChannels == m.numChannels && r.bandwidth == m.bandwidth
    ensures forall j :: 0 <= j < m.numChannels ==> r.busy[j] == (j == i && Stays(m, i))
    ensures r.totalCycles == m.totalCycles + (if Stays(m, i) then 0 else Counted(m.channels[i].completeCycle))
    ensures r.totalBytes == m.totalBytes + (if Stays(m, i) then 0 else m.channels[i].size)
  {
    TickTakesOne(m, r);
    TickKeeps(m);
    TickAdds(m, r);
    LandingAlone(m, i, m.numChannels);
    forall j: nat | j < m.numChannels ensures r.busy[j] == (j == i && Stays(m, i)) {
      TickPerChannel(m, r, j);
    }
  }

  /** A lone transfer with `c` ticks counted, and the totals so far. */
  ghost predicate AloneAt(m: Dma, i: nat, d: Descriptor, c: nat, bytes: nat, cycles: nat) {
    Alone(m, i) && Flies(m, i, d, c) && m.totalBytes == bytes && m.totalCycles == cycles
  }

  lemma {:induction false} AloneStep(m: Dma, r: Dma, i: nat, d: Descriptor, c: nat, t: nat, bytes: nat, cycles: nat)
    requires AloneAt(m, i, d, c, bytes, cycles) && r == Tick(m) && c < t
    requires Takes(m.bandwidth, m.numChannels, d.size, t)
    ensures c + 1 < t ==> AloneAt(r, i, d, c + 1, bytes, cycles)
    ensures c + 1 == t ==> r.active == 0 && r.totalBytes == bytes + d.size && r.totalCycles == cycles + t
  {
    TransferCyclesTakes(m.bandwidth, m.numChannels, d.size);
    TakesIsUnique(m.bandwidth, m.numChannels, d.size, t, TransferCycles(m.bandwidth, m.numChannels, d.size));
    FliesOn(m, r, i, d, c, t);
    AloneTick(m, r, i);
    NoneBusy(r, r.numChannels);
  }

  lemma {:induction false} AloneFlies(u: Dma, i: nat, d: Descriptor, t: nat, k: nat, r: Dma)
    requires AloneAt(u, i, d, 0, u.totalBytes, u.totalCycles) && Takes(u.bandwidth, u.numChannels, d.size, t) && k < t
    requires r == Ticks(u, k)
    ensures AloneAt(r, i, d, k, u.totalBytes, u.totalCycles)
    decreases k
  {
    if k > 0 {
      AloneFlies(u, i, d, t, k - 1, Ticks(u, k - 1));
      TicksNext(u, k - 1);
      AloneStep(Ticks(u, k - 1), r, i, d, k - 1, t, u.totalBytes, u.totalCycles);
    }
  }

  lemma {:induction false} AloneActive(u: Dma, i: nat, d: Descriptor, t: nat, k: nat)
    requires AloneAt(u, i, d, 0, u.totalBytes, u.totalCycles) && Takes(u.bandwidth, u.numChannels, d.size, t) && k < t
    ensures Ticks(u, k).active == 1
  {
    var r := Ticks(u, k);
    AloneFlies(u, i, d, t, k, r);
    OnlyOneBusy(r.busy, i, r.numChannels);
  }

  lemma {:induction false} AloneLands(u: Dma, i: nat, d: Descriptor, t: nat, r: Dma)
    requires AloneAt(u, i, d, 0, u.totalBytes, u.totalCycles) && Takes(u.bandwidth, u.numChannels, d.size, t) && t > 0
    requires r == Ticks(u, t)
    ensures r.active == 0 && r.totalBytes == u.totalBytes + d.size && r.totalCycles == u.totalCycles + t
  {
    var last: nat := t - 1;
    var m := Ticks(u, last);
    TicksNext(u, last);
    AloneFlies(u, i, d, t, last, m);
    AloneStep(m, r, i, d, last, t, u.totalBytes, u.totalCycles);
  }

  lemma {:induction false} SubmittedAlone(s: Dma, d: Descriptor, u: Dma)
    requires Consistent(s) && s.active == 0 && s.count == 0 && s.numChannels > 0 && d.Fits() && d.completeCycle == 0
    requires u == Submit(s, d)
    ensures AloneAt(u, 0, d, 0, s.totalBytes, s.totalCycles)
  {
    NoneBusy(s, s.numChannels);
    SubmitKeeps(s, d);
  }

  /** On an idle engine the transfer leaves it idle after its last tick, with its bytes and its ticks in the totals. */
  lemma {:induction false} LoneTransfer(s: Dma, d: Descriptor, t: nat)
    requires Consistent(s) && s.active == 0 && s.count == 0 && s.numChannels > 0 && d.Fits() && d.completeCycle == 0
    requires Takes(s.bandwidth, s.numChannels, d.size, t)
    ensures Consistent(Submit(s, d)) && t > 0
    ensures forall k: nat :: k < t ==> Ticks(Submit(s, d), k).active == 1
    ensures var r := Ticks(Submit(s, d), t);
            r.active == 0 && r.totalBytes == s.totalBytes + d.size && r.totalCycles == s.totalCycles + t
  {
    var u := Submit(s, d);
    SubmittedAlone(s, d, u);
    TransferCyclesTakes(s.bandwidth, s.numChannels, d.size);
    TakesIsUnique(s.bandwidth, s.numChannels, d.size, t, TransferCycles(s.bandwidth, s.numChannels, d.size));
    forall k: nat | k < t ensures Ticks(u, k).active == 1 {
      AloneActive(u, 0, d, t, k);
    }
    AloneLands(u, 0, d, t, Ticks(u, t));
  }

  lemma {:induction false} OnlyOneBusy(busy: seq<bool>, i: nat, k: nat)
    requires k <= |busy| && i < |busy| && forall j :: 0 <= j < k ==> busy[j] == (j == i)
    ensures CountBusy(busy, k) == if i < k then 1 else 0
  {
    if k > 0 {
      OnlyOneBusy(busy, i, k - 1);
    }
  }
}
