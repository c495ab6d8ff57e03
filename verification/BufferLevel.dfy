/**
 The segment allocator of one buffer level: first fit, splitting off the rest of a segment
 when it is at least 256 bytes and a segment slot is left. Sizes and addresses are 32 bits wide.
 */
module BufferLevel {

  const WORD := 0x1_0000_0000
  const MAX_SEGMENTS := 16
  const SPLIT := 256
  const NONE := 0xFFFF_FFFF

  datatype Segment = Segment(base: nat, size: nat, used: nat, locked: bool)

  datatype Level = Level(total: nat, free: nat, segs: seq<Segment>)

  // ---------------------------------------------------------------- the operations

  function Initial(total: nat): Level {
    Level(total, total, [Segment(0, total, 0, false)])
  }

  predicate Usable(s: Segment, size: nat) {
    !s.locked && s.used == 0 && s.size >= size
  }

  /** The first usable segment from `i` on, or the number of segments. */
  function FirstFit(segs: seq<Segment>, size: nat, i: nat): (r: nat)
    requires i <= |segs|
    ensures i <= r <= |segs|
    ensures forall k :: i <= k < r ==> !Usable(segs[k], size)
    ensures r < |segs| ==> Usable(segs[r], size)
    decreases |segs| - i
  {
    if i == |segs| || Usable(segs[i], size) then i else FirstFit(segs, size, i + 1)
  }

  predicate Splits(l: Level, i: nat, size: nat)
    requires i < |l.segs|
  {
    l.segs[i].size >= (size + SPLIT) % WORD && |l.segs| < MAX_SEGMENTS
  }

  /** Segment `i` given out; what is left of it becomes a new segment, or is dropped. */
  function Taken(l: Level, i: nat, size: nat): Level
    requires i < |l.segs| && size <= l.segs[i].size
  {
    var s := l.segs[i];
    var rest := if Splits(l, i, size) then [Segment((s.base + size) % WORD, s.size - size, 0, false)] else [];
    Level(l.total, (l.free - size) % WORD, l.segs[i := Segment(s.base, size, size, true)] + rest)
  }

  function Alloc(l: Level, size: nat): (r: (Level, nat)) {
    if size == 0 then (l, NONE)
    else
      var i := FirstFit(l.segs, size, 0);
      if i == |l.segs| then (l, NONE) else (Taken(l, i, size), i)
  }

  function Free(l: Level, id: nat): Level {
    if id >= |l.segs| then l
    else Level(l.total, (l.free + l.segs[id].size) % WORD, l.segs[id := l.segs[id].(used := 0, locked := false)])
  }

  predicate CanFit(l: Level, size: nat) {
    l.free >= size
  }

  // ---------------------------------------------------------------- the invariant

  function LockedSum(segs: seq<Segment>): nat {
    if segs == [] then 0
    else LockedSum(segs[..|segs| - 1]) + (if segs[|segs| - 1].locked then segs[|segs| - 1].size else 0)
  }

  function UnlockedSum(segs: seq<Segment>): nat {
    if segs == [] then 0
    else UnlockedSum(segs[..|segs| - 1]) + (if segs[|segs| - 1].locked then 0 else segs[|segs| - 1].size)
  }

  predicate Apart(a: Segment, b: Segment) {
    a.base + a.size <= b.base || b.base + b.size <= a.base
  }

  ghost predicate Disjoint(segs: seq<Segment>) {
    forall i, j :: 0 <= i < j < |segs| ==> Apart(segs[i], segs[j])
  }

  ghost predicate Inside(segs: seq<Segment>, total: nat) {
    forall i :: 0 <= i < |segs| ==> segs[i].base + segs[i].size <= total
  }

  /** An allocated segment is used whole, any other is unused. */
  ghost predicate UsedWhole(segs: seq<Segment>) {
    forall i :: 0 <= i < |segs| ==> segs[i].used == if segs[i].locked then segs[i].size else 0
  }

  /** Free bytes are what is not allocated, and enough for all free segments. */
  predicate Accounted(l: Level) {
    l.free + LockedSum(l.segs) == l.total && UnlockedSum(l.segs) <= l.free
  }

  ghost predicate Sound(l: Level) {
    && l.total < WORD && |l.segs| <= MAX_SEGMENTS
    && Disjoint(l.segs) && Inside(l.segs, l.total) && UsedWhole(l.segs) && Accounted(l)
  }

  lemma {:induction false} SumsUpdated(segs: seq<Segment>, i: nat, s: Segment)
    requires i < |segs|
    ensures var next, was := (if s.locked then s.size else 0), (if segs[i].locked then segs[i].size else 0);
            LockedSum(segs[i := s]) == LockedSum(segs) - was + next
    ensures var next, was := (if s.locked then 0 else s.size), (if segs[i].locked then 0 else segs[i].size);
            UnlockedSum(segs[i := s]) == UnlockedSum(segs) - was + next
  {
    var n := |segs| - 1;
    if i < n {
      SumsUpdated(segs[..n], i, s);
      assert segs[i := s][..n] == segs[..n][i := s];
    } else {
      assert segs[i := s][..n] == segs[..n];
    }
  }

  lemma {:induction false} SumsAppended(segs: seq<Segment>, s: Segment)
    ensures LockedSum(segs + [s]) == LockedSum(segs) + (if s.locked then s.size else 0)
    ensures UnlockedSum(segs + [s]) == UnlockedSum(segs) + (if s.locked then 0 else s.size)
  {
    assert (segs + [s])[..|segs|] == segs;
  }

  lemma {:induction false} SegmentFits(segs: seq<Segment>, i: nat)
    requires i < |segs|
    ensures segs[i].size <= if segs[i].locked then LockedSum(segs) else UnlockedSum(segs)
  {
    var n := |segs| - 1;
    if i < n { SegmentFits(segs[..n], i); }
  }

  lemma {:induction false} InitialIsSound(total: nat)
    requires total < WORD
    ensures Sound(Initial(total))
  {
    assert Initial(total).segs[..0] == [];
    SumsAppended([], Segment(0, total, 0, false));
  }

  /** The segment given out, and the list of what is left of it. */
  lemma {:induction false} TakenParts(l: Level, i: nat, size: nat) returns (given: Segment, rest: seq<Segment>)
    requires Sound(l) && i < |l.segs| && Usable(l.segs[i], size)
    ensures given == Segment(l.segs[i].base, size, size, true)
    ensures rest == [] || rest == [Segment(l.segs[i].base + size, l.segs[i].size - size, 0, false)]
    ensures Taken(l, i, size).segs == l.segs[i := given] + rest && |l.segs| + |rest| <= MAX_SEGMENTS
    ensures size <= l.free ==> Taken(l, i, size).free == l.free - size
  {
    given := Segment(l.segs[i].base, size, size, true);
    rest := if Splits(l, i, size) then [Segment(l.segs[i].base + size, l.segs[i].size - size, 0, false)] else [];
    assert l.segs[i].base + l.segs[i].size <= l.total < WORD;
  }

  lemma {:induction false} TakenIsAccounted(l: Level, i: nat, size: nat)
    requires Sound(l) && i < |l.segs| && Usable(l.segs[i], size)
    ensures Accounted(Taken(l, i, size)) && Taken(l, i, size).free == l.free - size
  {
    SegmentFits(l.segs, i);
    var given, rest := TakenParts(l, i, size);
    SumsUpdated(l.segs, i, given);
    if rest == [] {
      assert l.segs[i := given] + rest == l.segs[i := given];
    } else {
      SumsAppended(l.segs[i := given], rest[0]);
    }
  }

  lemma {:induction false} GivenIsDisjoint(segs: seq<Segment>, i: nat, given: Segment, rest: seq<Segment>)
    requires Disjoint(segs) && i < |segs| && given.base == segs[i].base && given.size <= segs[i].size
    requires |rest| <= 1
    requires |rest| == 1 ==>
               rest[0].base == segs[i].base + given.size && given.size + rest[0].size == segs[i].size
    ensures Disjoint(segs[i := given] + rest)
  {
    var r := segs[i := given] + rest;
    forall a, b | 0 <= a < b < |r| ensures Apart(r[a], r[b]) {
      if b < |segs| {
        assert Apart(segs[a], segs[b]);
      } else if a < i {
        assert Apart(segs[a], segs[i]);
      } else if i < a {
        assert Apart(segs[i], segs[a]);
      }
    }
  }

  lemma {:induction false} TakenIsSound(l: Level, i: nat, size: nat)
    requires Sound(l) && i < |l.segs| && Usable(l.segs[i], size)
    ensures Sound(Taken(l, i, size))
  {
    TakenIsAccounted(l, i, size);
    var given, rest := TakenParts(l, i, size);
    GivenIsDisjoint(l.segs, i, given, rest);
    GivenIsInside(l.segs, l.total, i, given, rest);
  }

  lemma {:induction false} GivenIsInside(segs: seq<Segment>, total: nat, i: nat, given: Segment, rest: seq<Segment>)
    requires Inside(segs, total) && UsedWhole(segs) && i < |segs| && given.size <= segs[i].size
    requires given == Segment(segs[i].base, given.size, given.size, true)
    requires rest == [] || rest == [Segment(segs[i].base + given.size, segs[i].size - given.size, 0, false)]
    ensures Inside(segs[i := given] + rest, total) && UsedWhole(segs[i := given] + rest)
  {
  }

  lemma FreeIsSound(l: Level, id: nat)
    requires Sound(l) && (id < |l.segs| ==> l.segs[id].locked)
    ensures Sound(Free(l, id))
  {
    if id < |l.segs| {
      var s := l.segs[id].(used := 0, locked := false);
      SumsUpdated(l.segs, id, s);
      SegmentFits(l.segs, id);
      var r := Free(l, id).segs;
      forall a, b | 0 <= a < b < |r| ensures Apart(r[a], r[b]) {
        assert Apart(l.segs[a], l.segs[b]);
      }
    }
  }

  /** Freeing keeps the books exactly when the segment does not exist, is allocated, or is empty. */
  lemma FreeKeepsAccountIff(l: Level, id: nat)
    requires Sound(l)
    ensures Accounted(Free(l, id)) <==> id >= |l.segs| || l.segs[id].locked || l.segs[id].size == 0
  {
    if id < |l.segs| {
      if l.segs[id].locked {
        FreeIsSound(l, id);
      } else {
        SumsUpdated(l.segs, id, l.segs[id].(used := 0, locked := false));
        SegmentFits(l.segs, id);
      }
    }
  }

  /** Success means the free bytes sufficed, and the segment is a fresh range of that size inside the level. */
  lemma AllocGives(l: Level, size: nat)
    requires Sound(l) && Alloc(l, size).1 != NONE
    ensures var (r, id) := Alloc(l, size);
            && CanFit(l, size) && r.free == l.free - size && Sound(r)
            && id < |l.segs| && !l.segs[id].locked && r.segs[id] == Segment(l.segs[id].base, size, size, true)
            && (forall k :: 0 <= k < |l.segs| && k != id ==> r.segs[k] == l.segs[k])
            && (forall k :: 0 <= k < |l.segs| && l.segs[k].locked ==> Apart(r.segs[id], l.segs[k]))
  {
    var (r, id) := Alloc(l, size);
    SegmentFits(l.segs, id);
    TakenIsAccounted(l, id, size);
    TakenIsSound(l, id, size);
    forall k | 0 <= k < |l.segs| && l.segs[k].locked ensures Apart(r.segs[id], l.segs[k]) {
      assert k < id ==> Apart(l.segs[k], l.segs[id]);
      assert id < k ==> Apart(l.segs[id], l.segs[k]);
    }
  }

  /** An allocation fails exactly when nothing was asked for or no single free segment is large enough. */
  lemma {:induction false} AllocFailsIff(l: Level, size: nat)
    requires Sound(l)
    ensures Alloc(l, size).1 == NONE <==> size == 0 || forall k :: 0 <= k < |l.segs| ==> !Usable(l.segs[k], size)
    ensures Alloc(l, size).1 == NONE ==> Alloc(l, size).0 == l
  {
    var i := FirstFit(l.segs, size, 0);
    if i < |l.segs| { assert Usable(l.segs[i], size); }
  }

  /**
   On any level, what is allocated is the first unlocked, unused segment that is large enough. It leaves one new free
   segment behind it exactly when 256 bytes more than asked for fit, in 32-bit arithmetic, and fewer than 16 exist.
   */
  lemma {:induction false} AllocLeaves(l: Level, size: nat, r: Level, id: nat)
    requires |l.segs| <= 16 && Alloc(l, size) == (r, id) && id != NONE
    ensures 0 < size && id < |l.segs| <= |r.segs| && !l.segs[id].locked && l.segs[id].used == 0
    ensures size <= l.segs[id].size
    ensures forall k :: 0 <= k < id ==> l.segs[k].locked || l.segs[k].used != 0 || l.segs[k].size < size
    ensures forall k :: 0 <= k < |l.segs| ==>
              r.segs[k] == if k == id then Segment(l.segs[id].base, size, size, true) else l.segs[k]
    ensures r.free == (l.free - size) % 0x1_0000_0000 && r.total == l.total
    ensures var s := l.segs[id];
            r.segs[|l.segs|..] == if s.size >= (size + 256) % 0x1_0000_0000 && |l.segs| < 16
                                  then [Segment((s.base + size) % 0x1_0000_0000, s.size - size, 0, false)] else []
  {
    assert Usable(l.segs[id], size);
    forall k | 0 <= k < id ensures l.segs[k].locked || l.segs[k].used != 0 || l.segs[k].size < size {
      assert !Usable(l.segs[k], size);
    }
  }

  /** The bytes of free segments fall by what was asked for, or by the whole segment when none of it is left behind. */
  lemma {:induction false} UsableFalls(l: Level, size: nat, r: Level, id: nat)
    requires |l.segs| <= 16 && Alloc(l, size) == (r, id) && id != NONE
    ensures id < |l.segs|
    ensures UnlockedSum(r.segs) ==
              UnlockedSum(l.segs) - if l.segs[id].size >= (size + 256) % 0x1_0000_0000 && |l.segs| < 16 then size
                                    else l.segs[id].size
  {
    AllocLeaves(l, size, r, id);
    var given := Segment(l.segs[id].base, size, size, true);
    SumsUpdated(l.segs, id, given);
    assert r.segs == l.segs[id := given] + r.segs[|l.segs|..];
    if r.segs[|l.segs|..] != [] {
      SumsAppended(l.segs[id := given], r.segs[|l.segs|]);
    } else {
      assert r.segs == l.segs[id := given];
    }
  }

  /**
   A fresh level serves a second request exactly when the first one left a segment that is large enough: so always
   when it has 256 bytes more than both.
   */
  lemma {:induction false} FreshServesTwoIff(total: nat, size: nat, ask: nat)
    requires 0 < size <= total < 0x1_0000_0000 && 0 < ask
    ensures var (l, id) := Alloc(Initial(total), size);
            && id == 0
            && (Alloc(l, ask).1 == 1 <==> total >= (size + 256) % 0x1_0000_0000 && ask <= total - size)
            && (Alloc(l, ask).1 == NONE <==> !(total >= (size + 256) % 0x1_0000_0000 && ask <= total - size))
    ensures size + ask + 256 <= total ==> Alloc(Alloc(Initial(total), size).0, ask).1 == 1
  {
    var start := Initial(total);
    assert Usable(start.segs[0], size);
    var (l, id) := Alloc(start, size);
    AllocLeaves(start, size, l, id);
    var (m, jd) := Alloc(l, ask);
    assert !Usable(l.segs[0], ask);
    if jd == NONE {
      assert |l.segs| == 2 ==> !Usable(l.segs[1], ask);
    } else {
      AllocLeaves(l, ask, m, jd);
    }
  }

  /** Giving a segment back right after taking it returns every byte to the count. */
  lemma AllocThenFree(l: Level, size: nat)
    requires Sound(l) && Alloc(l, size).1 != NONE
    ensures var (r, id) := Alloc(l, size);
            Free(r, id).free == l.free && LockedSum(Free(r, id).segs) == LockedSum(l.segs)
  {
    var (r, id) := Alloc(l, size);
    AllocGives(l, size);
    FreeIsSound(r, id);
  }

  /**
   Enough free bytes do not make an allocation succeed: once a fresh level has given out all but at most
   255 bytes, it gives out no more, although the rest still counts as free.
   */
  lemma {:induction false} CanFitIsNotEnough(total: nat, size: nat, ask: nat)
    requires 0 < size < total < size + SPLIT < WORD && 0 < ask <= total - size
    ensures var (l, id) := Alloc(Initial(total), size); id == 0 && CanFit(l, ask) && Alloc(l, ask) == (l, NONE)
  {
    var start := Initial(total);
    assert Usable(start.segs[0], size) && !Splits(start, 0, size);
    assert FirstFit(start.segs, size, 0) == 0;
    var l := Taken(start, 0, size);
    assert l.segs == [Segment(0, size, size, true)];
    assert FirstFit(l.segs, ask, 0) == FirstFit(l.segs, ask, 1);
  }

  // ---------------------------------------------------------------- runs

  datatype Op = DoAlloc(size: nat) | DoFree(id: nat)

  function Apply(l: Level, op: Op): Level {
    match op
    case DoAlloc(size) => Alloc(l, size).0
    case DoFree(id) => Free(l, id)
  }

  function Run(l: Level, ops: seq<Op>): Level {
    if ops == [] then l else Apply(Run(l, ops[..|ops| - 1]), ops[|ops| - 1])
  }

  /** Every segment that is freed and exists is allocated at that moment. */
  ghost predicate FreesAllocated(l: Level, ops: seq<Op>) {
    forall k {:trigger ops[k]} :: 0 <= k < |ops| && ops[k].DoFree? ==>
      var now := Run(l, ops[..k]); ops[k].id < |now.segs| ==> now.segs[ops[k].id].locked
  }

  /** Every run that frees only allocated segments keeps the invariant and the level's size. */
  lemma {:induction false} RunIsSound(total: nat, ops: seq<Op>)
    requires total < WORD && FreesAllocated(Initial(total), ops)
    ensures Sound(Run(Initial(total), ops)) && Run(Initial(total), ops).total == total
    decreases |ops|
  {
    if ops == [] {
      InitialIsSound(total);
    } else {
      var n := |ops| - 1;
      var front, op := ops[..n], ops[n];
      forall k | 0 <= k < n ensures front[k] == ops[k] && front[..k] == ops[..k] {
      }
      RunIsSound(total, front);
      var now := Run(Initial(total), front);
      match op
      case DoAlloc(size) =>
        AllocFailsIff(now, size);
        if Alloc(now, size).1 != NONE { AllocGives(now, size); }
      case DoFree(id) =>
        FreeIsSound(now, id);
    }
  }

  // ---------------------------------------------------------------- the code

  class Buffer {
    const total: nat
    var freeBytes: nat
    var count: nat
    const segments: array<Segment>

    ghost predicate Valid() reads this, segments {
      Shaped() && Sound(Contents())
    }

    predicate Shaped() reads this {
      segments.Length == MAX_SEGMENTS && count <= MAX_SEGMENTS
    }

    ghost function Contents(): Level
      requires Shaped()
      reads this, segments
    {
      Level(total, freeBytes, segments[..count])
    }

    constructor (size: nat)
      requires size < WORD
      ensures Valid() && Contents() == Initial(size) && fresh(segments)
    {
      total := size;
      freeBytes := size;
      count := 1;
      segments := new Segment[MAX_SEGMENTS](_ => Segment(0, 0, 0, false));
      new;
      segments[0] := Segment(0, size, 0, false);
      InitialIsSound(size);
      assert segments[..1] == Initial(size).segs;
    }

    method Allocate(size: nat) returns (id: nat)
      requires Shaped() && size < WORD
      modifies this, segments
      ensures Shaped() && (Contents(), id) == Alloc(old(Contents()), size)
      ensures old(Valid()) ==> Valid() && (id != NONE ==> old(CanFit(Contents(), size)))
    {
      ghost var before := Contents();
      if Valid() {
        AllocFailsIff(before, size);
        if Alloc(before, size).1 != NONE { AllocGives(before, size); }
      }
      if size == 0 {
        return NONE;
      }
      var i := 0;
      while i < count
        invariant 0 <= i <= count && Shaped() && Contents() == before
        invariant FirstFit(before.segs, size, 0) == FirstFit(before.segs, size, i)
      {
        if !segments[i].locked && segments[i].used == 0 && segments[i].size >= size {
          assert Usable(before.segs[i], size);
          Take(i, size);
          return i;
        }
        i := i + 1;
      }
      return NONE;
    }

    method Take(i: nat, size: nat)
      requires Shaped() && i < count && Usable(segments[i], size) && size < WORD
      modifies this, segments
      ensures Shaped() && Contents() == Taken(old(Contents()), i, size)
    {
      ghost var before := Contents();
      var s := segments[i];
      if s.size >= (size + SPLIT) % WORD && count < MAX_SEGMENTS {
        segments[count] := Segment((s.base + size) % WORD, s.size - size, 0, false);
        count := count + 1;
      }
      segments[i] := Segment(s.base, size, size, true);
      freeBytes := (freeBytes - size) % WORD;
      assert segments[..count] == Taken(before, i, size).segs;
    }

    method Release(id: nat)
      requires Shaped()
      modifies this, segments
      ensures Shaped() && Contents() == Free(old(Contents()), id)
      ensures old(Valid()) && (id < old(count) ==> old(segments[id].locked)) ==> Valid()
    {
      ghost var before := Contents();
      if Valid() && (id < count ==> segments[id].locked) { FreeIsSound(before, id); }
      if id >= count {
        return;
      }
      segments[id] := segments[id].(used := 0, locked := false);
      freeBytes := (freeBytes + segments[id].size) % WORD;
      assert segments[..count] == Free(before, id).segs;
    }

    method Fits(size: nat) returns (ok: bool)
      requires Shaped()
      ensures ok == CanFit(Contents(), size) && (ok <==> size <= freeBytes)
    {
      return freeBytes >= size;
    }
  }
}
