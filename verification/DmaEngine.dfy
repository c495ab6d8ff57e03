/**
 The DMA engine as the accelerator keeps it: channel, busy-flag and ring arrays updated in
 place. Every method takes exactly the step of the state machine that it is named after.
 */
module DmaEngine {
  import opened DmaSpec

  class Engine {
    const channels: array<Descriptor>
    const busy: array<bool>
    const ring: array<Descriptor>
    const numChannels: nat
    const bandwidth: real
    var active: nat
    var totalBytes: nat
    var totalCycles: nat
    var head: nat
    var tail: nat
    var count: nat

    ghost function State(): Dma
      reads this, channels, busy, ring
    {
      Dma(channels[..], busy[..], numChannels, active, bandwidth, totalBytes, totalCycles, ring[..], head, tail, count)
    }

    ghost predicate Valid()
      reads this, channels, busy, ring
    {
      && channels != ring
      && Consistent(State())
    }

    constructor (numChannels: nat, bandwidth: real)
      ensures Valid() && fresh(channels) && fresh(busy) && fresh(ring)
      ensures this.numChannels == (if numChannels > MAX_CHANNELS then MAX_CHANNELS else numChannels)
      ensures this.bandwidth == bandwidth
      ensures State() == DmaSpec.Reset(State()) && totalBytes == 0 && totalCycles == 0
    {
      this.numChannels := if numChannels > MAX_CHANNELS then MAX_CHANNELS else numChannels;
      this.bandwidth := bandwidth;
      channels := new Descriptor[MAX_CHANNELS](_ => NoTransfer);
      busy := new bool[MAX_CHANNELS](_ => false);
      ring := new Descriptor[MAX_PREFETCH](_ => NoTransfer);
      active, totalBytes, totalCycles, head, tail, count := 0, 0, 0, 0, 0, 0;
      new;
      assert State() == DmaSpec.Reset(State());
      ResetKeeps(State());
    }

    /** Takes the first free channel, or none. */
    method Submit(d: Descriptor) returns (channel: int)
      requires Valid() && d.Fits()
      modifies this`active, channels, busy
      ensures Valid() && State() == DmaSpec.Submit(old(State()), d)
      ensures channel == if FirstFree(old(busy[..]), numChannels, 0) == numChannels then -1
                         else FirstFree(old(busy[..]), numChannels, 0)
    {
      ghost var s := State();
      SubmitKeeps(s, d);
      var i := 0;
      while i < numChannels
        invariant 0 <= i <= numChannels && State() == s
        invariant FirstFree(s.busy, numChannels, 0) == FirstFree(s.busy, numChannels, i)
      {
        if !busy[i] {
          channels[i] := d.(status := InFlight);
          busy[i] := true;
          active := active + 1;
          assert State() == DmaSpec.Submit(s, d);
          return i;
        }
        i := i + 1;
      }
      return -1;
    }

    method Prefetch(d: Descriptor) returns (ret: int)
      requires Valid() && d.Fits()
      modifies this`tail, this`count, ring
      ensures Valid() && State() == DmaSpec.Prefetch(old(State()), d)
      ensures ret == if old(count) >= MAX_PREFETCH then -1 else 0
    {
      ghost var s := State();
      ghost var t := PrefetchNext(s, d);
      if count >= MAX_PREFETCH {
        return -1;
      }
      ring[tail] := d.(status := Pending);
      assert ring[..] == t.ring;
      tail := (tail + 1) % MAX_PREFETCH;
      count := count + 1;
      assert State() == t;
      return 0;
    }

    /** Advances every transfer by one cycle, then issues a waiting prefetch if a channel is free. */
    method Tick()
      requires Valid()
      modifies this`active, this`totalBytes, this`totalCycles, this`head, this`count, channels, busy
      ensures Valid() && State() == DmaSpec.Tick(old(State()))
    {
      ghost var s := State();
      TickKeeps(s);
      var i := 0;
      while i < numChannels
        invariant 0 <= i <= numChannels && channels != ring
        invariant Shape(s) && State() == TickChannels(s, i)
      {
        TickOne(i);
        i := i + 1;
      }
      TickChannelsKeep(s, numChannels);
      IssueOne();
    }

    method TickOne(i: nat)
      requires channels != ring && Shape(State()) && i < numChannels
      modifies this`active, this`totalBytes, this`totalCycles, channels, busy
      ensures State() == TickChannel(old(State()), i)
    {
      ghost var s := State();
      if !busy[i] || channels[i].status != InFlight {
        return;
      }
      var cycles := TransferCycles(bandwidth, numChannels, channels[i].size);
      channels[i] := channels[i].(completeCycle := (channels[i].completeCycle + 1) % UINT32_RANGE);
      if channels[i].completeCycle >= cycles {
        channels[i] := channels[i].(status := Complete);
        busy[i] := false;
        totalBytes := totalBytes + channels[i].size;
        totalCycles := totalCycles + channels[i].completeCycle;
        active := if active > 0 then active - 1 else UINT32_RANGE - 1;
      }
      assert State().channels == TickChannel(s, i).channels;
      assert State().busy == TickChannel(s, i).busy;
    }

    method IssueOne()
      requires Valid()
      modifies this`active, this`head, this`count, channels, busy
      ensures Valid() && State() == Issue(old(State()))
    {
      ghost var t := IssueNext(State());
      if count > 0 {
        var free := HasFreeChannel();
        if free {
          var pref := ring[head];
          var channel := Submit(pref);
          if channel >= 0 {
            head := (head + 1) % MAX_PREFETCH;
            count := count - 1;
          }
        }
      }
      assert State() == t;
    }

    method HasFreeChannel() returns (free: bool)
      requires Valid()
      ensures free == (FirstFree(busy[..], numChannels, 0) < numChannels)
    {
      var i := 0;
      while i < numChannels
        invariant 0 <= i <= numChannels
        invariant FirstFree(busy[..], numChannels, 0) == FirstFree(busy[..], numChannels, i)
      {
        if !busy[i] {
          return true;
        }
        i := i + 1;
      }
      return false;
    }

    /**
     Ticks until no transfer is active. Entered with one active, it leaves no channel busy
     and no prefetch queued, and has moved exactly the bytes in flight and queued before.
     */
    method WaitAll()
      requires Valid()
      modifies this`active, this`totalBytes, this`totalCycles, this`head, this`count, channels, busy
      ensures Valid() && State() == DmaSpec.WaitAll(old(State()))
      ensures active == 0
      ensures old(active) > 0 ==> count == 0 && forall i :: 0 <= i < numChannels ==> !busy[i]
      ensures old(active) > 0 ==>
        totalBytes == old(totalBytes) + old(BytesInFlight(State(), numChannels)) + old(Bytes(Contents(State())))
    {
      ghost var s := State();
      if active > 0 {
        WaitAllDrains(s);
      }
      while active > 0
        invariant Valid() && DmaSpec.WaitAll(State()) == DmaSpec.WaitAll(s)
        decreases count, RemainingOn(State(), numChannels)
      {
        TickProgresses(State());
        Tick();
      }
      assert forall i :: 0 <= i < numChannels ==> busy[i] == State().busy[i];
    }

    /** Clears the channels and the queue. */
    method Reset()
      requires Valid()
      modifies this`active, this`head, this`tail, this`count, channels, busy
      ensures Valid() && State() == DmaSpec.Reset(old(State()))
    {
      ghost var s := State();
      ResetKeeps(s);
      var i := 0;
      while i < MAX_CHANNELS
        invariant 0 <= i <= MAX_CHANNELS && channels.Length == busy.Length == MAX_CHANNELS && channels != ring
        invariant forall k :: 0 <= k < i ==> channels[k] == NoTransfer && !busy[k]
      {
        channels[i] := NoTransfer;
        busy[i] := false;
        i := i + 1;
      }
      active, head, tail, count := 0, 0, 0, 0;
      assert channels[..] == seq(MAX_CHANNELS, _ => NoTransfer);
      assert busy[..] == seq(MAX_CHANNELS, _ => false);
    }
  }
}
