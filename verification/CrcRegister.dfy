/**
 The link layer's CRC register, one bit at a time, and exactly which differences between
 two messages it can lose. Machine words are numbers; exclusive-or is defined bit by bit.

 The register shifts right and folds in a constant whose top bit is bit 28. A shift
 therefore takes a non-zero difference below 2^29 to another one, never to zero; the only
 non-zero register value that it takes to zero has bit 29 on top.
 */
module CrcRegister {

  const POLY: nat := 0x1EDC6F41
  const WORD: nat := 0x1_0000_0000

  /** The one non-zero register value that a shift loses. */
  const LOST: nat := 0x3DB8DE83

  // ---------------------------------------------------------------- exclusive or

  function Xor(a: nat, b: nat): nat
    decreases a + b
  {
    if a == 0 && b == 0 then 0 else 2 * Xor(a / 2, b / 2) + (a % 2 + b % 2) % 2
  }

  lemma {:induction false} XorZero(a: nat)
    ensures Xor(a, 0) == a && Xor(0, a) == a
  {
    if a > 0 { XorZero(a / 2); }
  }

  lemma {:induction false} XorCommutes(a: nat, b: nat)
    ensures Xor(a, b) == Xor(b, a)
    decreases a + b
  {
    if a + b > 0 { XorCommutes(a / 2, b / 2); }
  }

  lemma XorHalves(a: nat, b: nat)
    ensures Xor(a, b) / 2 == Xor(a / 2, b / 2) && Xor(a, b) % 2 == (a % 2 + b % 2) % 2
  {
  }

  lemma {:induction false} XorAssociates(a: nat, b: nat, c: nat)
    ensures Xor(Xor(a, b), c) == Xor(a, Xor(b, c))
  {
    SameTriple(a, b, c, Xor(a, b), Xor(b, c), Xor(Xor(a, b), c), Xor(a, Xor(b, c)));
  }

  lemma {:induction false} SameTriple(a: nat, b: nat, c: nat, ab: nat, bc: nat, left: nat, right: nat)
    requires ab == Xor(a, b) && bc == Xor(b, c) && left == Xor(ab, c) && right == Xor(a, bc)
    ensures left == right
    decreases a + b + c
  {
    if a + b + c > 0 {
      XorHalves(a, b);
      XorHalves(b, c);
      XorHalves(ab, c);
      XorHalves(a, bc);
      SameTriple(a / 2, b / 2, c / 2, ab / 2, bc / 2, left / 2, right / 2);
      ParityAssociates(a % 2, b % 2, c % 2);
      SameHalves(left, right);
    }
  }

  lemma ParityAssociates(x: nat, y: nat, z: nat)
    requires x <= 1 && y <= 1 && z <= 1
    ensures ((x + y) % 2 + z) % 2 == (x + (y + z) % 2) % 2
  {
  }

  lemma SameHalves(x: nat, y: nat)
    requires x / 2 == y / 2 && x % 2 == y % 2
    ensures x == y
  {
  }

  lemma {:induction false} XorEqualIff(a: nat, b: nat)
    ensures Xor(a, b) == 0 <==> a == b
    decreases a + b
  {
    if a + b > 0 {
      XorEqualIff(a / 2, b / 2);
      XorHalves(a, b);
    }
  }

  function Pow2(k: nat): (p: nat)
    ensures p > 0
  {
    if k == 0 then 1 else 2 * Pow2(k - 1)
  }

  lemma {:induction false} XorFits(a: nat, b: nat, k: nat)
    requires a < Pow2(k) && b < Pow2(k)
    ensures Xor(a, b) < Pow2(k)
    decreases k
  {
    if k > 0 {
      XorFits(a / 2, b / 2, k - 1);
      XorHalves(a, b);
    } else {
      assert Xor(0, 0) == 0;
    }
  }

  /** Exclusive or with all ones turns every bit over. */
  lemma {:induction false} XorOnes(a: nat, k: nat, ones: nat, x: nat)
    requires a <= ones && ones + 1 == Pow2(k) && x == Xor(a, ones)
    ensures x == ones - a
    decreases k
  {
    if k > 0 {
      XorHalves(a, ones);
      Halved(ones, Pow2(k - 1));
      XorOnes(a / 2, k - 1, ones / 2, x / 2);
      TurnedOver(a, x, ones / 2);
    }
  }

  lemma Halved(ones: nat, p: nat)
    requires ones + 1 == 2 * p
    ensures ones / 2 + 1 == p && ones % 2 == 1
  {
  }

  lemma TurnedOver(a: nat, x: nat, half: nat)
    requires x / 2 == half - a / 2 && x % 2 == (a % 2 + 1) % 2
    ensures x == 2 * half + 1 - a
  {
  }

  lemma XorSwap(x: nat, u: nat, y: nat, v: nat)
    ensures Xor(Xor(x, u), Xor(y, v)) == Xor(Xor(x, y), Xor(u, v))
  {
    XorAssociates(x, u, Xor(y, v));
    XorAssociates(u, y, v);
    XorCommutes(u, y);
    XorAssociates(y, u, v);
    XorAssociates(x, y, Xor(u, v));
  }

  /** Folding the same value into both sides changes no difference. */
  lemma XorBoth(x: nat, y: nat, z: nat)
    ensures Xor(Xor(x, z), Xor(y, z)) == Xor(x, y)
    ensures Xor(x, z) == Xor(y, z) <==> x == y
  {
    XorSwap(x, z, y, z);
    XorEqualIff(z, z);
    XorZero(Xor(x, y));
    XorEqualIff(x, y);
    XorEqualIff(Xor(x, z), Xor(y, z));
  }

  // ---------------------------------------------------------------- the register

  function Fold(r: nat, carry: nat, p: nat): nat {
    if carry == 1 then Xor(r, p) else r
  }

  /** Right by one place, folding the constant in when a one falls out. */
  function Shift(r: nat): nat {
    Fold(r / 2, r % 2, POLY)
  }

  function Shifts(r: nat, n: nat): nat
    decreases n
  {
    if n == 0 then r else Shifts(Shift(r), n - 1)
  }

  lemma ShiftLinear(x: nat, y: nat)
    ensures Shift(Xor(x, y)) == Xor(Shift(x), Shift(y))
  {
    XorHalves(x, y);
    FoldLinear(x / 2, x % 2, y / 2, y % 2, POLY);
  }

  lemma FoldLinear(a: nat, s: nat, b: nat, t: nat, p: nat)
    requires s <= 1 && t <= 1
    ensures Fold(Xor(a, b), (s + t) % 2, p) == Xor(Fold(a, s, p), Fold(b, t, p))
  {
    var x := Xor(a, b);
    if s == 1 {
      if t == 1 {
        assert Fold(x, (s + t) % 2, p) == x;
        XorBoth(a, b, p);
      } else {
        assert Fold(x, (s + t) % 2, p) == Xor(x, p);
        FoldOnce(a, b, p);
      }
    } else if t == 1 {
      assert Fold(x, (s + t) % 2, p) == Xor(x, p);
      FoldOnce(a, b, p);
    }
  }

  lemma FoldOnce(a: nat, b: nat, p: nat)
    ensures Xor(Xor(a, b), p) == Xor(Xor(a, p), b) == Xor(a, Xor(b, p))
  {
    XorAssociates(a, p, b);
    XorCommutes(p, b);
    XorAssociates(a, b, p);
  }

  lemma {:induction false} ShiftsLinear(x: nat, y: nat, n: nat)
    ensures Shifts(Xor(x, y), n) == Xor(Shifts(x, n), Shifts(y, n))
    decreases n
  {
    if n > 0 {
      ShiftLinear(x, y);
      ShiftsLinear(Shift(x), Shift(y), n - 1);
    }
  }

  /** A shift loses zero and one other value, and nothing else. */
  lemma ShiftKernel(r: nat)
    ensures Shift(r) == 0 <==> r == 0 || r == LOST
  {
    XorEqualIff(r / 2, POLY);
  }

  lemma PowersUsed()
    ensures Pow2(29) == 0x2000_0000 && Pow2(30) == 0x4000_0000 && Pow2(32) == WORD
  {
    assert Pow2(4) == 16;
    assert Pow2(8) == 256;
    assert Pow2(12) == 4096;
    assert Pow2(16) == 0x1_0000;
    assert Pow2(20) == 0x10_0000;
    assert Pow2(24) == 0x100_0000;
    assert Pow2(28) == 0x1000_0000;
  }

  /** Below 2^30 a shift leads below 2^29, to zero only from zero and LOST. */
  lemma ShiftBelow30(r: nat)
    requires r < Pow2(30)
    ensures Shift(r) < Pow2(29)
  {
    PowersUsed();
    XorFits(r / 2, POLY, 29);
  }

  lemma {:induction false} SmallNeverDies(r: nat, n: nat)
    requires 0 < r < Pow2(29)
    ensures 0 < Shifts(r, n) < Pow2(29)
    decreases n
  {
    if n > 0 {
      PowersUsed();
      ShiftKernel(r);
      ShiftBelow30(r);
      SmallNeverDies(Shift(r), n - 1);
    }
  }

  lemma {:induction false} ShiftsZero(n: nat)
    ensures Shifts(0, n) == 0
  {
    if n > 0 { ShiftsZero(n - 1); }
  }

  /** A difference of at most 30 bits is lost, sooner or later, exactly when it is zero or LOST. */
  lemma DiesIff(r: nat, n: nat)
    requires r < Pow2(30) && n > 0
    ensures Shifts(r, n) == 0 <==> r == 0 || r == LOST
  {
    ShiftKernel(r);
    ShiftBelow30(r);
    if Shift(r) == 0 {
      ShiftsZero(n - 1);
    } else {
      SmallNeverDies(Shift(r), n - 1);
    }
  }

  lemma ShiftFits(r: nat)
    requires r < Pow2(32)
    ensures Shift(r) < Pow2(32)
  {
    PowersUsed();
    XorFits(r / 2, POLY, 32);
  }

  // ---------------------------------------------------------------- streams of bits

  function Bit(b: bool): nat {
    if b then 1 else 0
  }

  /** The register after a stream of bits, the first bit first. */
  function Serial(r: nat, bits: seq<bool>): nat
    decreases |bits|
  {
    if bits == [] then r else Serial(Shift(Xor(r, Bit(bits[0]))), bits[1..])
  }

  function Differences(a: seq<bool>, b: seq<bool>): (d: seq<bool>)
    requires |a| == |b|
    ensures |d| == |a| && forall i :: 0 <= i < |a| ==> d[i] == (a[i] != b[i])
  {
    seq(|a|, i requires 0 <= i < |a| => a[i] != b[i])
  }

  /** Two streams differ in the register by the stream of their differences. */
  lemma {:induction false} SerialLinear(r: nat, q: nat, a: seq<bool>, b: seq<bool>)
    requires |a| == |b|
    ensures Xor(Serial(r, a), Serial(q, b)) == Serial(Xor(r, q), Differences(a, b))
    decreases |a|
  {
    if a != [] {
      var u, v := Bit(a[0]), Bit(b[0]);
      SerialLinear(Shift(Xor(r, u)), Shift(Xor(q, v)), a[1..], b[1..]);
      assert Differences(a, b)[1..] == Differences(a[1..], b[1..]);
      ShiftLinear(Xor(r, u), Xor(q, v));
      XorSwap(r, u, q, v);
      BitDifference(a[0], b[0]);
    }
  }

  lemma {:induction false} BitDifference(x: bool, y: bool)
    ensures Xor(Bit(x), Bit(y)) == Bit(x != y)
  {
    assert Xor(0, 0) == 0;
  }

  lemma {:induction false} SerialJoin(r: nat, a: seq<bool>, b: seq<bool>)
    ensures Serial(r, a + b) == Serial(Serial(r, a), b)
    decreases |a|
  {
    if a == [] {
      assert a + b == b;
    } else {
      assert (a + b)[1..] == a[1..] + b;
      SerialJoin(Shift(Xor(r, Bit(a[0]))), a[1..], b);
    }
  }

  function Zeros(n: nat): (z: seq<bool>)
    ensures |z| == n && forall i :: 0 <= i < n ==> !z[i]
  {
    seq(n, _ => false)
  }

  lemma {:induction false} SerialZeros(r: nat, n: nat)
    ensures Serial(r, Zeros(n)) == Shifts(r, n)
    decreases n
  {
    if n > 0 {
      XorZero(r);
      assert Zeros(n)[1..] == Zeros(n - 1);
      SerialZeros(Shift(r), n - 1);
    }
  }

  /** The number with these bits, the first bit lowest. */
  function Value(bits: seq<bool>): nat {
    if bits == [] then 0 else Bit(bits[0]) + 2 * Value(bits[1..])
  }

  lemma {:induction false} ValueFits(bits: seq<bool>)
    ensures Value(bits) < Pow2(|bits|)
  {
    if bits != [] { ValueFits(bits[1..]); }
  }

  lemma {:induction false} ValueZeroIff(bits: seq<bool>)
    ensures Value(bits) == 0 <==> bits == Zeros(|bits|)
  {
    if bits != [] {
      ValueZeroIff(bits[1..]);
      if bits[1..] == Zeros(|bits| - 1) && !bits[0] {
        forall i | 0 <= i < |bits| ensures !bits[i] {
          if i > 0 { assert bits[i] == bits[1..][i - 1]; }
        }
      }
    }
  }

  /** Folding in a word and shifting is shifting its bits in one by one, lowest first. */
  lemma {:induction false} WordIsItsBits(r: nat, bits: seq<bool>)
    ensures Shifts(Xor(r, Value(bits)), |bits|) == Serial(r, bits)
    decreases |bits|
  {
    if bits == [] {
      XorZero(r);
    } else {
      var b, w := Bit(bits[0]), Value(bits[1..]);
      HighPartWaits(r, b, w);
      WordIsItsBits(Shift(Xor(r, b)), bits[1..]);
    }
  }

  /** Bits above the lowest may as well be folded in after the shift. */
  lemma HighPartWaits(r: nat, b: nat, w: nat)
    requires b <= 1
    ensures Shift(Xor(r, b + 2 * w)) == Xor(Shift(Xor(r, b)), w)
  {
    LowBitApart(b, w);
    XorAssociates(r, b, 2 * w);
    ShiftLinear(Xor(r, b), 2 * w);
  }

  lemma LowBitApart(b: nat, w: nat)
    requires b <= 1
    ensures Xor(b, 2 * w) == b + 2 * w
  {
    XorZero(w);
    if b + w > 0 { assert b / 2 == 0 && (2 * w) / 2 == w; }
  }

  // ---------------------------------------------------------------- what a checksum misses

  /** The streams agree except, possibly, in the window of differences `w` that starts at `at`. */
  ghost predicate DifferWithin(a: seq<bool>, b: seq<bool>, at: nat, w: seq<bool>) {
    && |a| == |b| && at + |w| <= |a|
    && Differences(a, b) == Zeros(at) + w + Zeros(|a| - at - |w|)
  }

  /** Whether two streams leave the same register depends on their differences only. */
  lemma {:induction false} SameRegisterIff(r: nat, a: seq<bool>, b: seq<bool>)
    requires |a| == |b|
    ensures Serial(r, a) == Serial(r, b) <==> Serial(0, Differences(a, b)) == 0
  {
    SerialLinear(r, r, a, b);
    XorEqualIff(r, r);
    XorEqualIff(Serial(r, a), Serial(r, b));
  }

  /** Into an empty register, agreements before a window count for nothing, and those behind it only shift. */
  lemma {:induction false} WindowShifts(at: nat, w: seq<bool>, rest: nat)
    ensures Serial(0, Zeros(at) + w + Zeros(rest)) == Shifts(Value(w), |w| + rest)
  {
    SerialJoin(0, Zeros(at) + w, Zeros(rest));
    SerialJoin(0, Zeros(at), w);
    SerialZeros(0, at);
    ShiftsZero(at);
    WordIsItsBits(0, w);
    XorZero(Value(w));
    SerialZeros(Serial(0, w), rest);
    ShiftsJoin(Value(w), |w|, rest);
  }

  lemma {:induction false} SmallWindow(w: seq<bool>, k: nat)
    requires |w| <= k
    ensures Value(w) < Pow2(k)
  {
    ValueFits(w);
    PowGrows(|w|, k);
  }

  /** A window of at most `k`, that is 30, bits is lost exactly when it is zero or LOST. */
  lemma {:induction false} WindowLostIff(w: seq<bool>, n: nat, k: nat)
    requires |w| <= k == 30 && n > 0
    ensures Shifts(Value(w), n) == 0 <==> Value(w) == 0 || Value(w) == LOST
  {
    SmallWindow(w, k);
    DiesIff(Value(w), n);
  }

  /**
   A burst of differences within 30 bits goes unnoticed exactly when it is no difference at
   all or the one pattern LOST, whatever surrounds it.
   */
  lemma {:induction false} BurstMissedIff(r: nat, a: seq<bool>, b: seq<bool>, at: nat, w: seq<bool>)
    requires DifferWithin(a, b, at, w) && 0 < |w| <= 30
    ensures Serial(r, a) == Serial(r, b) <==> Value(w) == 0 || Value(w) == LOST
  {
    var rest := |a| - at - |w|;
    SameRegisterIff(r, a, b);
    WindowShifts(at, w, rest);
    WindowLostIff(w, |w| + rest, 30);
  }

  lemma {:induction false} ShiftsJoin(r: nat, m: nat, n: nat)
    ensures Shifts(Shifts(r, m), n) == Shifts(r, m + n)
    decreases m
  {
    if m > 0 { ShiftsJoin(Shift(r), m - 1, n); }
  }

  lemma {:induction false} PowGrows(j: nat, k: nat)
    requires j <= k
    ensures Pow2(j) <= Pow2(k)
    decreases k
  {
    if j < k { PowGrows(j, k - 1); }
  }

  /** A burst of differences within 29 bits never goes unnoticed. */
  lemma ShortBurstNoticed(r: nat, a: seq<bool>, b: seq<bool>, at: nat, w: seq<bool>)
    requires DifferWithin(a, b, at, w) && |w| <= 29
    ensures Serial(r, a) == Serial(r, b) <==> a == b
  {
    if w == [] {
      NoDifference(a, b);
    } else {
      BurstMissedIff(r, a, b, at, w);
      ValueFits(w);
      PowGrows(|w|, 29);
      PowersUsed();
      ValueZeroIff(w);
      NoDifference(a, b);
      if a == b {
        assert w == Differences(a, b)[at..at + |w|];
      }
    }
  }

  lemma {:induction false} NoDifference(a: seq<bool>, b: seq<bool>)
    requires |a| == |b|
    ensures a == b <==> Differences(a, b) == Zeros(|a|)
  {
    if Differences(a, b) == Zeros(|a|) {
      forall i | 0 <= i < |a| ensures a[i] == b[i] { assert !Differences(a, b)[i]; }
    }
  }
}
