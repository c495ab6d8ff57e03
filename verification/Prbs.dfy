/**
 Pseudo-random bit patterns for the die-to-die link: generating them into a byte buffer,
 checking a received buffer, and what sequence the single feedback tap gives.
 */
module Prbs {
  import Register = CrcRegister

  const WORD := 0x1_0000_0000
  const DEFAULT_SEED := 0x7E

  type Byte = b: nat | b < 256

  datatype Pattern = Prbs7 | Prbs9 | Prbs15 | Prbs23 | Prbs31 | Unlisted

  /** The position of the pattern's one tap. */
  function Tap(p: Pattern): (t: nat)
    ensures t <= 30
  {
    match p
    case Prbs7 => 6
    case Prbs9 => 8
    case Prbs15 => 14
    case Prbs23 => 22
    case Prbs31 => 30
    case Unlisted => 14
  }

  function Taps(p: Pattern): nat {
    match p
    case Prbs7 => 0x40
    case Prbs9 => 0x100
    case Prbs15 => 0x4000
    case Prbs23 => 0x400000
    case Prbs31 => 0x40000000
    case Unlisted => 0x4000
  }

  lemma TapsHasOneBit(p: Pattern)
    ensures Taps(p) == Register.Pow2(Tap(p))
  {
    assert Register.Pow2(6) == 64;
    assert Register.Pow2(8) == 4 * Register.Pow2(6);
    PowAdds(8, 6);
    PowAdds(14, 8);
    PowAdds(22, 8);
  }

  lemma {:induction false} PowAdds(j: nat, k: nat)
    ensures Register.Pow2(j + k) == Register.Pow2(j) * Register.Pow2(k)
  {
    if k > 0 { PowAdds(j, k - 1); }
  }

  // ---------------------------------------------------------------- bits and the register

  function BitOf(x: nat, j: nat): (b: nat)
    ensures b < 2
  {
    if j == 0 then x % 2 else BitOf(x / 2, j - 1)
  }

  function And(a: nat, b: nat): nat {
    if a == 0 || b == 0 then 0 else 2 * And(a / 2, b / 2) + (a % 2) * (b % 2)
  }

  function Parity(x: nat): (r: nat)
    ensures r < 2
  {
    if x == 0 then 0 else (Parity(x / 2) + x % 2) % 2
  }

  /** One step of the 31-bit register: left by one place, the parity of the tapped bits behind. */
  function Advance(state: nat, taps: nat): nat {
    (2 * state + Parity(And(state, taps))) % Register.Pow2(31)
  }

  function StateAt(seed: nat, taps: nat, k: nat): nat {
    if k == 0 then seed else Advance(StateAt(seed, taps, k - 1), taps)
  }

  /** Bit `k` of the pattern. */
  function Out(seed: nat, taps: nat, k: nat): (b: nat)
    ensures b < 2
  {
    StateAt(seed, taps, k) % 2
  }

  lemma {:induction false} ParityOfTap(s: nat, t: nat)
    ensures Parity(And(s, Register.Pow2(t))) == BitOf(s, t)
    decreases t
  {
    if s == 0 {
      ZeroBits(t);
    } else if t == 0 {
      assert And(s / 2, 0) == 0;
      assert And(s, 1) == s % 2;
    } else {
      ParityOfTap(s / 2, t - 1);
      assert Register.Pow2(t) / 2 == Register.Pow2(t - 1) && Register.Pow2(t) % 2 == 0;
      AndEven(s, Register.Pow2(t));
      ParityDoubled(And(s / 2, Register.Pow2(t - 1)));
    }
  }

  lemma {:induction false} AndEven(s: nat, p: nat)
    requires p % 2 == 0 && s > 0 && p > 0
    ensures And(s, p) == 2 * And(s / 2, p / 2)
  {
  }

  lemma {:induction false} ParityDoubled(x: nat)
    ensures Parity(2 * x) == Parity(x)
  {
  }

  lemma {:induction false} ZeroBits(j: nat)
    ensures BitOf(0, j) == 0
  {
    if j > 0 { ZeroBits(j - 1); }
  }

  lemma HalfOfRemainder(x: nat, m: nat)
    requires m > 0
    ensures (x % (2 * m)) / 2 == (x / 2) % m && (x % (2 * m)) % 2 == x % 2
  {
    var q, r, p := x / (2 * m), x % (2 * m), m * (x / (2 * m));
    assert (2 * m) * q == 2 * p;
    Halves(x, p, r);
    Remainder(x / 2, m, q, r / 2);
  }

  lemma Halves(x: nat, p: nat, r: nat)
    requires x == 2 * p + r
    ensures x / 2 == p + r / 2 && x % 2 == r % 2
  {
  }

  lemma Remainder(y: nat, m: nat, q: nat, r: nat)
    requires m > 0 && y == m * q + r && r < m
    ensures y % m == r
  {
    var d := y / m - q;
    assert y == m * (y / m) + y % m;
    assert m * d == m * (y / m) - m * q;
    assert d >= 1 ==> m * d >= m;
    assert d <= -1 ==> m * d + m <= 0;
  }

  /** Cutting a number to `k` bits keeps the bits below. */
  lemma {:induction false} LowBitsKept(x: nat, k: nat, j: nat)
    requires j < k
    ensures BitOf(x % Register.Pow2(k), j) == BitOf(x, j)
    decreases k
  {
    HalfOfRemainder(x, Register.Pow2(k - 1));
    if j > 0 { LowBitsKept(x / 2, k - 1, j - 1); }
  }

  /** After a step the bits stand one place higher, and the tapped bit stands lowest. */
  lemma AdvanceMoves(s: nat, t: nat, j: nat)
    requires j < 31
    ensures BitOf(Advance(s, Register.Pow2(t)), j) == if j == 0 then BitOf(s, t) else BitOf(s, j - 1)
  {
    ParityOfTap(s, t);
    LowBitsKept(2 * s + BitOf(s, t), 31, j);
    ShiftedBits(s, BitOf(s, t), j, 2 * s + BitOf(s, t));
  }

  lemma {:induction false} ShiftedBits(s: nat, bit: nat, j: nat, x: nat)
    requires bit < 2 && x == 2 * s + bit
    ensures BitOf(x, j) == if j == 0 then bit else BitOf(s, j - 1)
  {
    Halves(x, s, bit);
  }

  // ---------------------------------------------------------------- what the pattern is

  lemma {:induction false} BitClimbs(seed: nat, t: nat, k: nat, j: nat)
    requires j <= t <= 30
    ensures BitOf(StateAt(seed, Register.Pow2(t), k + j), j) == Out(seed, Register.Pow2(t), k)
    decreases j
  {
    if j > 0 {
      BitClimbs(seed, t, k, j - 1);
      AdvanceMoves(StateAt(seed, Register.Pow2(t), k + j - 1), t, j);
    }
  }

  /** With its single tap the pattern repeats after as many bits as its name says, however long it runs. */
  lemma Repeats(seed: nat, p: Pattern, k: nat)
    ensures Out(seed, Taps(p), k + Tap(p) + 1) == Out(seed, Taps(p), k)
  {
    var t := Tap(p);
    TapsHasOneBit(p);
    BitClimbs(seed, t, k, t);
    AdvanceMoves(StateAt(seed, Register.Pow2(t), k + t), t, 0);
  }

  /** The periods in numbers. */
  lemma {:induction false} PatternsRepeat(seed: nat, p: Pattern, k: nat)
    ensures Taps(p) == match p
                       case Prbs7 => 0x40
                       case Prbs9 => 0x100
                       case Prbs15 => 0x4000
                       case Prbs23 => 0x400000
                       case Prbs31 => 0x40000000
                       case Unlisted => 0x4000
    ensures var n := match p
                     case Prbs7 => 7
                     case Prbs9 => 9
                     case Prbs15 => 15
                     case Prbs23 => 23
                     case Prbs31 => 31
                     case Unlisted => 15;
            Out(seed, Taps(p), k + n) == Out(seed, Taps(p), k)
  {
    Repeats(seed, p, k);
  }

  lemma {:induction false} SeedClimbs(seed: nat, t: nat, k: nat, j: nat)
    requires k <= j <= t <= 30
    ensures BitOf(StateAt(seed, Register.Pow2(t), k), j) == BitOf(seed, j - k)
    decreases k
  {
    if k > 0 {
      SeedClimbs(seed, t, k - 1, j - 1);
      AdvanceMoves(StateAt(seed, Register.Pow2(t), k - 1), t, j);
    }
  }

  /** The first bits are the seed's low bits: the lowest first, then the others from the tap down. */
  lemma FirstBits(seed: nat, p: Pattern, k: nat)
    requires k <= Tap(p)
    ensures Out(seed, Taps(p), k) == BitOf(seed, if k == 0 then 0 else Tap(p) + 1 - k)
  {
    var t := Tap(p);
    TapsHasOneBit(p);
    if k > 0 {
      SeedClimbs(seed, t, k - 1, t);
      AdvanceMoves(StateAt(seed, Register.Pow2(t), k - 1), t, 0);
    }
  }

  ghost predicate SameLowBits(a: nat, b: nat, n: nat) {
    forall j: nat :: j < n ==> BitOf(a, j) == BitOf(b, j)
  }

  ghost predicate SameStream(a: nat, b: nat, taps: nat, n: nat) {
    forall k: nat :: k < n ==> Out(a, taps, k) == Out(b, taps, k)
  }

  lemma {:induction false} SameLowSameOut(a: nat, b: nat, p: Pattern, k: nat)
    requires SameLowBits(a, b, Tap(p) + 1)
    ensures Out(a, Taps(p), k) == Out(b, Taps(p), k)
    decreases k
  {
    var t := Tap(p);
    if k <= t {
      FirstBits(a, p, k);
      FirstBits(b, p, k);
    } else {
      Repeats(a, p, k - t - 1);
      Repeats(b, p, k - t - 1);
      SameLowSameOut(a, b, p, k - t - 1);
    }
  }

  /** Over at least one period, two seeds give the same pattern exactly when their low bits up to the tap agree. */
  lemma SameStreamIff(a: nat, b: nat, p: Pattern, n: nat)
    requires n > Tap(p)
    ensures SameStream(a, b, Taps(p), n) <==> SameLowBits(a, b, Tap(p) + 1)
  {
    var t := Tap(p);
    if SameStream(a, b, Taps(p), n) {
      forall j: nat | j < t + 1 ensures BitOf(a, j) == BitOf(b, j) {
        var k := if j == 0 then 0 else t + 1 - j;
        assert Out(a, Taps(p), k) == Out(b, Taps(p), k);
        FirstBits(a, p, k);
        FirstBits(b, p, k);
      }
    }
    if SameLowBits(a, b, t + 1) {
      forall k: nat | k < n ensures Out(a, Taps(p), k) == Out(b, Taps(p), k) {
        SameLowSameOut(a, b, p, k);
      }
    }
  }

  // ---------------------------------------------------------------- buffers

  /** Bit `k` of a buffer, the lowest bit of each byte first. */
  function BufferBit(buffer: seq<Byte>, k: nat): (b: nat)
    requires k < 8 * |buffer|
    ensures b < 2
  {
    BitOf(buffer[k / 8], k % 8)
  }

  lemma {:induction false} BitHalved(x: nat, j: nat)
    requires j > 0
    ensures BitOf(x, j) == BitOf(x / 2, j - 1)
  {
  }

  /** Bits weighed by their places, the first one least. */
  function Weighed(bits: seq<nat>): nat {
    if bits == [] then 0 else bits[0] + 2 * Weighed(bits[1..])
  }

  /** A number is the sum of its bits, each weighed by its place. */
  lemma {:induction false} MadeOfBits(x: nat, bits: seq<nat>)
    requires x < Register.Pow2(|bits|) && forall j: nat :: j < |bits| ==> bits[j] == BitOf(x, j)
    ensures x == Weighed(bits)
  {
    if bits != [] {
      forall j: nat | j < |bits| - 1 ensures bits[1..][j] == BitOf(x / 2, j) {
        BitHalved(x, j + 1);
      }
      MadeOfBits(x / 2, bits[1..]);
    }
  }

  /** Byte `i` of a buffer that carries a pattern: eight bits of the pattern, the earliest one weighing least. */
  lemma {:induction false} ByteOfPattern(buffer: seq<Byte>, seed: nat, taps: nat, n: nat, i: nat)
    requires 8 * i + 8 <= n <= 8 * |buffer| && Carries(buffer, seed, taps, n)
    ensures buffer[i] == Weighed(seq(8, j requires 0 <= j < 8 => Out(seed, taps, 8 * i + j)))
  {
    var bits: seq<nat> := seq(8, j requires 0 <= j < 8 => Out(seed, taps, 8 * i + j));
    forall j: nat | j < 8 ensures bits[j] == BitOf(buffer[i], j) {
      assert (8 * i + j) / 8 == i && (8 * i + j) % 8 == j;
      assert BufferBit(buffer, 8 * i + j) == Out(seed, taps, 8 * i + j);
    }
    EightBits();
    MadeOfBits(buffer[i], bits);
  }

  lemma EightBits()
    ensures Register.Pow2(8) == 256
  {
    assert Register.Pow2(4) == 16;
    PowAdds(4, 4);
  }

  /** In how many of the first `n` bits the buffer differs from the pattern. */
  function Errors(buffer: seq<Byte>, seed: nat, taps: nat, n: nat): nat
    requires n <= 8 * |buffer|
  {
    if n == 0 then 0
    else Errors(buffer, seed, taps, n - 1) + (if BufferBit(buffer, n - 1) != Out(seed, taps, n - 1) then 1 else 0)
  }

  function Differences(a: seq<Byte>, b: seq<Byte>, n: nat): nat
    requires n <= 8 * |a| && n <= 8 * |b|
  {
    if n == 0 then 0
    else Differences(a, b, n - 1) + (if BufferBit(a, n - 1) != BufferBit(b, n - 1) then 1 else 0)
  }

  /** The buffer's first `n` bits are the pattern's. */
  ghost predicate Carries(buffer: seq<Byte>, seed: nat, taps: nat, n: nat)
    requires n <= 8 * |buffer|
  {
    forall k: nat :: k < n ==> BufferBit(buffer, k) == Out(seed, taps, k)
  }

  function Seeded(seed: nat): nat {
    if seed == 0 then DEFAULT_SEED else seed
  }

  /** Errors counted in a received buffer are its differences from a buffer generated with the default seed. */
  lemma {:induction false} ErrorsAreDifferences(received: seq<Byte>, sent: seq<Byte>, taps: nat, n: nat)
    requires n <= 8 * |received| && n <= 8 * |sent| && Carries(sent, DEFAULT_SEED, taps, n)
    ensures Errors(received, DEFAULT_SEED, taps, n) == Differences(received, sent, n)
  {
    if n > 0 { ErrorsAreDifferences(received, sent, taps, n - 1); }
  }

  lemma {:induction false} NoErrorsIff(buffer: seq<Byte>, taps: nat, n: nat)
    requires n <= 8 * |buffer|
    ensures Errors(buffer, DEFAULT_SEED, taps, n) == 0 <==> Carries(buffer, DEFAULT_SEED, taps, n)
  {
    if n > 0 { NoErrorsIff(buffer, taps, n - 1); }
  }

  /**
   The checker accepts a pattern of at least one period from another seed exactly when that seed's
   low bits, up to the tap, are those of the default seed.
   */
  lemma OtherSeedPassesIff(buffer: seq<Byte>, seed: nat, p: Pattern, n: nat)
    requires Tap(p) < n <= 8 * |buffer| && Carries(buffer, Seeded(seed), Taps(p), n)
    ensures Errors(buffer, DEFAULT_SEED, Taps(p), n) == 0 <==> SameLowBits(Seeded(seed), DEFAULT_SEED, Tap(p) + 1)
  {
    NoErrorsIff(buffer, Taps(p), n);
    SameStreamIff(Seeded(seed), DEFAULT_SEED, p, n);
    assert Carries(buffer, DEFAULT_SEED, Taps(p), n) <==> SameStream(Seeded(seed), DEFAULT_SEED, Taps(p), n);
  }

  // ---------------------------------------------------------------- the code

  method LfsrAdvance(state: nat, taps: nat) returns (next: nat)
    ensures next == Advance(state, taps)
  {
    var parity := 0;
    var tmp := And(state, taps);
    ghost var goal := Parity(tmp);
    while tmp != 0
      invariant 0 <= parity < 2 && (parity + Parity(tmp)) % 2 == goal
      decreases tmp
    {
      parity := (parity + tmp % 2) % 2;
      tmp := tmp / 2;
    }
    next := (2 * state + parity) % Register.Pow2(31);
  }

  lemma {:induction false} HighBitAdded(v: nat, b: nat, bit: nat, j: nat)
    requires v < Register.Pow2(b) && bit < 2 && j <= b
    ensures v + bit * Register.Pow2(b) < Register.Pow2(b + 1)
    ensures BitOf(v + bit * Register.Pow2(b), j) == if j == b then bit else BitOf(v, j)
    decreases b
  {
    if b > 0 {
      var p := Register.Pow2(b - 1);
      assert Register.Pow2(b) == 2 * p && bit * Register.Pow2(b) == 2 * (bit * p);
      assert (v + 2 * (bit * p)) / 2 == v / 2 + bit * p;
      assert (v + 2 * (bit * p)) % 2 == v % 2;
      HighBitAdded(v / 2, b - 1, bit, if j == 0 then 0 else j - 1);
    }
  }

  lemma {:induction false} StateSplits(seed: nat, taps: nat, k: nat, j: nat)
    ensures StateAt(StateAt(seed, taps, k), taps, j) == StateAt(seed, taps, k + j)
  {
    if j > 0 { StateSplits(seed, taps, k, j - 1); }
  }

  /** Up to eight bits of the pattern, as one byte. */
  method GenerateByte(lfsr: nat, taps: nat, bits: nat) returns (byteVal: Byte, next: nat)
    requires bits <= 8
    ensures next == StateAt(lfsr, taps, bits)
    ensures byteVal < Register.Pow2(bits) && forall j: nat :: j < bits ==> BitOf(byteVal, j) == Out(lfsr, taps, j)
  {
    Register.PowGrows(bits, 8);
    byteVal := 0;
    next := lfsr;
    var b := 0;
    while b < bits
      invariant 0 <= b <= bits && next == StateAt(lfsr, taps, b) && byteVal < Register.Pow2(b)
      invariant forall j: nat :: j < b ==> BitOf(byteVal, j) == Out(lfsr, taps, j)
    {
      var bit := next % 2;
      forall j: nat | j <= b ensures BitOf(byteVal + bit * Register.Pow2(b), j) == Out(lfsr, taps, j) {
        HighBitAdded(byteVal, b, bit, j);
      }
      HighBitAdded(byteVal, b, bit, 0);
      Register.PowGrows(b + 1, 8);
      byteVal := byteVal + bit * Register.Pow2(b);
      next := LfsrAdvance(next, taps);
      b := b + 1;
    }
  }

  /** Bytes that hold `n` bits. */
  function BytesFor(n: nat): nat {
    (n + 7) / 8
  }

  /** Writes the first `length` bits of the pattern; bytes past them are left alone. */
  method Generate(p: Pattern, seed: nat, length: nat, buffer: array<Byte>) returns (generated: nat)
    requires BytesFor(length) <= buffer.Length && length < WORD
    modifies buffer
    ensures generated == length && Carries(buffer[..], if seed == 0 then 0x7E else seed, Taps(p), length)
    ensures length % 8 != 0 ==> buffer[length / 8] < Register.Pow2(length % 8)
    ensures buffer[BytesFor(length)..] == old(buffer[BytesFor(length)..])
  {
    generated := 0;
    if length == 0 {
      return;
    }
    var taps := Taps(p);
    var lfsr := Seeded(seed);
    var i := 0;
    while i < length && generated < length
      invariant 0 <= i <= BytesFor(length) && generated == (if 8 * i < length then 8 * i else length)
      invariant generated < length ==> lfsr == StateAt(Seeded(seed), taps, generated)
      invariant Carries(buffer[..], Seeded(seed), taps, generated)
      invariant generated == length && length % 8 != 0 ==> buffer[length / 8] < Register.Pow2(length % 8)
      invariant buffer[BytesFor(length)..] == old(buffer[BytesFor(length)..])
      decreases length - generated
    {
      var bits := if length - generated < 8 then length - generated else 8;
      var byteVal, next := GenerateByte(lfsr, taps, bits);
      ghost var before := buffer[..];
      buffer[i] := byteVal;
      ByteWritten(before, buffer[..], i, Seeded(seed), taps, bits);
      StateSplits(Seeded(seed), taps, generated, bits);
      lfsr := next;
      generated := generated + bits;
      i := i + 1;
    }
  }

  lemma ByteWritten(before: seq<Byte>, after: seq<Byte>, i: nat, seed: nat, taps: nat, bits: nat)
    requires i < |before| == |after| && bits <= 8 && Carries(before, seed, taps, 8 * i)
    requires after == before[i := after[i]]
    requires forall j: nat :: j < bits ==> BitOf(after[i], j) == Out(StateAt(seed, taps, 8 * i), taps, j)
    ensures Carries(after, seed, taps, 8 * i + bits)
  {
    forall k: nat | k < 8 * i + bits ensures BufferBit(after, k) == Out(seed, taps, k) {
      if k < 8 * i {
        assert BufferBit(before, k) == Out(seed, taps, k) && k / 8 < i;
      } else {
        StateSplits(seed, taps, 8 * i, k - 8 * i);
        assert k / 8 == i && k % 8 == k - 8 * i;
      }
    }
  }

  /** The bits of one byte, up to the length. */
  method VerifyByte(taps: nat, buffer: array<Byte>, i: nat, length: nat, state: nat, before: nat)
    returns (lfsr: nat, pos: nat, errors: nat)
    requires 8 * i < length <= 8 * buffer.Length && state == StateAt(DEFAULT_SEED, taps, 8 * i)
    requires before == Errors(buffer[..], DEFAULT_SEED, taps, 8 * i)
    ensures pos == (if 8 * i + 8 < length then 8 * i + 8 else length) && lfsr == StateAt(DEFAULT_SEED, taps, pos)
    ensures errors == Errors(buffer[..], DEFAULT_SEED, taps, pos)
  {
    lfsr, pos, errors := state, 8 * i, before;
    var b := 0;
    while b < 8 && pos < length
      invariant 0 <= b <= 8 && pos == 8 * i + b <= length
      invariant lfsr == StateAt(DEFAULT_SEED, taps, pos) && errors == Errors(buffer[..], DEFAULT_SEED, taps, pos)
    {
      var expected := lfsr % 2;
      var received := BitOf(buffer[i], b);
      assert pos / 8 == i && pos % 8 == b;
      if expected != received {
        errors := errors + 1;
      }
      lfsr := LfsrAdvance(lfsr, taps);
      pos := pos + 1;
      b := b + 1;
    }
  }

  /**
   Counts the first `length` bits that differ from the pattern of the default seed. With nothing to check the
   caller's counter keeps the value `counter` it has.
   */
  method Verify(p: Pattern, buffer: array?<Byte>, length: nat, counter: nat) returns (pos: nat, errors: nat)
    requires buffer != null ==> BytesFor(length) <= buffer.Length && length < WORD
    ensures buffer == null || length == 0 ==> pos == 0 && errors == counter
    ensures buffer != null && length > 0 ==>
              pos == length && errors == Errors(buffer[..], DEFAULT_SEED, Taps(p), length)
  {
    pos, errors := 0, counter;
    if buffer == null || length == 0 {
      return;
    }
    errors := 0;
    var taps := Taps(p);
    var lfsr := DEFAULT_SEED;
    var i := 0;
    while i < length && pos < length
      invariant 0 <= i <= BytesFor(length) && pos == (if 8 * i < length then 8 * i else length)
      invariant lfsr == StateAt(DEFAULT_SEED, taps, pos)
      invariant errors == Errors(buffer[..], DEFAULT_SEED, taps, pos)
      decreases length - pos
    {
      lfsr, pos, errors := VerifyByte(taps, buffer, i, length, lfsr, errors);
      i := i + 1;
    }
  }

  class Phy {
    var prbsErrorCount: nat
    var bitCount: nat

    constructor ()
      ensures prbsErrorCount == 0 && bitCount == 0
    {
      prbsErrorCount, bitCount := 0, 0;
    }

    /** Always passes; of `count` bits asked for, it covers one in eight, and one more. */
    method SelfTest(p: Pattern, count: nat) returns (ret: int)
      modifies this
      ensures ret == 0 && prbsErrorCount == 0 && bitCount == old(bitCount) + (count / 8 + 1) % WORD
    {
      var buffer := new Byte[count / 8 + 1](_ => 0);
      var length := (count / 8 + 1) % WORD;
      var generated := Generate(p, DEFAULT_SEED, length, buffer);
      var pos, errors := Verify(p, buffer, generated, 0);
      NoErrorsIff(buffer[..], Taps(p), length);
      prbsErrorCount := errors;
      bitCount := bitCount + generated;
      ret := if errors == 0 then 0 else -1;
    }
  }
}
