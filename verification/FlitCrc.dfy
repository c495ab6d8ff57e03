/**
 Flits of the die-to-die link: the byte image the checksum runs over, packing and
 verifying, and the transmission errors that verification is certain to notice.
 */
module FlitCrc {
  import opened CrcRegister

  const PAYLOAD_SIZE := 32
  const FLIT_SIZE := 56
  const CRC_SIZE := 4

  type byte = x: nat | x < 256

  // ---------------------------------------------------------------- bytes and bits

  /** The `k` low bits of `v`, lowest first. */
  function Bits(v: nat, k: nat): (b: seq<bool>)
    ensures |b| == k
  {
    if k == 0 then [] else [v % 2 == 1] + Bits(v / 2, k - 1)
  }

  lemma {:induction false} BitsValue(v: nat, k: nat)
    requires v < Pow2(k)
    ensures Value(Bits(v, k)) == v
    decreases k
  {
    if k > 0 { BitsValue(v / 2, k - 1); }
  }

  function MessageBits(data: seq<byte>): (b: seq<bool>)
    ensures |b| == 8 * |data|
  {
    if data == [] then [] else Bits(data[0], 8) + MessageBits(data[1..])
  }

  function CrcByte(crc: nat, b: byte): nat {
    Shifts(Xor(crc, b), 8)
  }

  /** The register after a run of bytes. */
  function CrcBytes(crc: nat, data: seq<byte>): nat
    decreases |data|
  {
    if data == [] then crc else CrcBytes(CrcByte(crc, data[0]), data[1..])
  }

  function CrcBuffer(data: seq<byte>): nat {
    Xor(CrcBytes(WORD - 1, data), WORD - 1)
  }

  /** Byte steps are eight bit steps: the checksum is that of the bits, each byte lowest bit first. */
  lemma {:induction false} BytesAreBits(crc: nat, data: seq<byte>)
    ensures CrcBytes(crc, data) == Serial(crc, MessageBits(data))
    decreases |data|
  {
    if data != [] {
      var b := data[0];
      assert Pow2(8) == 256;
      BitsValue(b, 8);
      WordIsItsBits(crc, Bits(b, 8));
      SerialJoin(crc, Bits(b, 8), MessageBits(data[1..]));
      BytesAreBits(CrcByte(crc, b), data[1..]);
    }
  }

  lemma {:induction false} ShiftsFit(r: nat, n: nat)
    requires r < WORD
    ensures Shifts(r, n) < WORD
    decreases n
  {
    if n > 0 {
      PowersUsed();
      ShiftFits(r);
      ShiftsFit(Shift(r), n - 1);
    }
  }

  lemma CrcByteFits(crc: nat, b: byte)
    requires crc < WORD
    ensures CrcByte(crc, b) < WORD
  {
    PowersUsed();
    XorFits(crc, b, 32);
    ShiftsFit(Xor(crc, b), 8);
  }

  lemma {:induction false} CrcBytesFit(crc: nat, data: seq<byte>)
    requires crc < WORD
    ensures CrcBytes(crc, data) < WORD
    decreases |data|
  {
    if data != [] {
      CrcByteFits(crc, data[0]);
      CrcBytesFit(CrcByte(crc, data[0]), data[1..]);
    }
  }

  lemma CrcBufferFits(data: seq<byte>)
    ensures CrcBuffer(data) < WORD
  {
    CrcBytesFit(WORD - 1, data);
    PowersUsed();
    XorFits(CrcBytes(WORD - 1, data), WORD - 1, 32);
  }

  /** Little-endian storage of the low `k` bytes of `v`. */
  function Le(v: nat, k: nat): (b: seq<byte>)
    ensures |b| == k
  {
    if k == 0 then [] else [v % 256] + Le(v / 256, k - 1)
  }

  function FromLe(b: seq<byte>): nat {
    if b == [] then 0 else b[0] + 256 * FromLe(b[1..])
  }

  lemma {:induction false} LeRoundTrip(b: seq<byte>)
    ensures Le(FromLe(b), |b|) == b
  {
    if b != [] {
      var v, rest := FromLe(b), FromLe(b[1..]);
      assert v == 256 * rest + b[0];
      assert v % 256 == b[0] && v / 256 == rest;
      LeRoundTrip(b[1..]);
    }
  }

  // ---------------------------------------------------------------- images

  /** A flit as it lies in memory: the checksum in the first four bytes. */
  type Image = b: seq<byte> | |b| == FLIT_SIZE witness seq(FLIT_SIZE, _ => 0)

  /** What the checksum covers: the image with its checksum bytes zeroed. */
  function Covered(m: Image): (r: Image)
    ensures forall i :: CRC_SIZE <= i < FLIT_SIZE ==> r[i] == m[i]
    ensures forall i :: 0 <= i < CRC_SIZE ==> r[i] == 0
  {
    [0, 0, 0, 0] + m[CRC_SIZE..]
  }

  ghost predicate Verifies(m: Image) {
    CrcBuffer(Covered(m)) == FromLe(m[..CRC_SIZE])
  }

  lemma ChecksumEqualIff(a: seq<byte>, b: seq<byte>)
    ensures CrcBuffer(a) == CrcBuffer(b) <==> Serial(WORD - 1, MessageBits(a)) == Serial(WORD - 1, MessageBits(b))
  {
    BytesAreBits(WORD - 1, a);
    BytesAreBits(WORD - 1, b);
    XorBoth(CrcBytes(WORD - 1, a), CrcBytes(WORD - 1, b), WORD - 1);
  }

  lemma {:induction false} FromLeInjective(a: seq<byte>, b: seq<byte>)
    requires |a| == |b|
    ensures FromLe(a) == FromLe(b) <==> a == b
  {
    LeRoundTrip(a);
    LeRoundTrip(b);
  }

  lemma {:induction false} MessageBitsInjective(a: seq<byte>, b: seq<byte>)
    requires |a| == |b|
    ensures MessageBits(a) == MessageBits(b) <==> a == b
  {
    if a != [] && MessageBits(a) == MessageBits(b) {
      assert MessageBits(a)[..8] == Bits(a[0], 8) && MessageBits(b)[..8] == Bits(b[0], 8);
      assert MessageBits(a)[8..] == MessageBits(a[1..]) && MessageBits(b)[8..] == MessageBits(b[1..]);
      assert Pow2(8) == 256;
      BitsValue(a[0], 8);
      BitsValue(b[0], 8);
      MessageBitsInjective(a[1..], b[1..]);
    }
  }

  // ---------------------------------------------------------------- certain detection

  /**
   After a flit that verifies, one that carries the same checksum but differs from it by a
   burst within 30 of the covered bits verifies exactly when the burst is empty or LOST.
   */
  lemma BurstPassesIff(m: Image, n: Image, at: nat, w: seq<bool>)
    requires Verifies(m) && n[..CRC_SIZE] == m[..CRC_SIZE] && 0 < |w| <= 30
    requires DifferWithin(MessageBits(Covered(m)), MessageBits(Covered(n)), at, w)
    ensures Verifies(n) <==> Value(w) == 0 || Value(w) == LOST
  {
    ChecksumEqualIff(Covered(m), Covered(n));
    BurstMissedIff(WORD - 1, MessageBits(Covered(m)), MessageBits(Covered(n)), at, w);
  }

  /** Two flits that agree on their checksums and differ by a burst within 29 bits cannot both verify. */
  lemma ShortBurstDetected(m: Image, n: Image, at: nat, w: seq<bool>)
    requires Verifies(m) && Verifies(n) && n[..CRC_SIZE] == m[..CRC_SIZE] && |w| <= 29
    requires DifferWithin(MessageBits(Covered(m)), MessageBits(Covered(n)), at, w)
    ensures m == n
  {
    ChecksumEqualIff(Covered(m), Covered(n));
    ShortBurstNoticed(WORD - 1, MessageBits(Covered(m)), MessageBits(Covered(n)), at, w);
    MessageBitsInjective(Covered(m), Covered(n));
    assert m == m[..CRC_SIZE] + Covered(m)[CRC_SIZE..];
    assert n == n[..CRC_SIZE] + Covered(n)[CRC_SIZE..];
  }

  lemma {:induction false} BitOfByte(a: seq<byte>, j: nat, k: nat)
    requires j < |a| && k < 8
    ensures MessageBits(a)[8 * j + k] == Bits(a[j], 8)[k]
    decreases |a|
  {
    if j > 0 {
      assert MessageBits(a)[8 * j + k] == MessageBits(a[1..])[8 * (j - 1) + k];
      BitOfByte(a[1..], j - 1, k);
    }
  }

  /** Messages that agree outside `len` bytes from `from` on differ within their bits. */
  lemma ByteWindow(a: seq<byte>, b: seq<byte>, from: nat, len: nat)
    requires |a| == |b| && from + len <= |a|
    requires forall i :: 0 <= i < |a| && !(from <= i < from + len) ==> a[i] == b[i]
    ensures DifferWithin(MessageBits(a), MessageBits(b), 8 * from,
                         Differences(MessageBits(a), MessageBits(b))[8 * from..8 * (from + len)])
  {
    var d := Differences(MessageBits(a), MessageBits(b));
    var lo, hi := 8 * from, 8 * (from + len);
    forall i | 0 <= i < |d| && !(lo <= i < hi) ensures !d[i] {
      SameByteSameBits(a, b, i);
    }
    WindowParts(d, lo, hi);
  }

  lemma SameByteSameBits(a: seq<byte>, b: seq<byte>, i: nat)
    requires |a| == |b| && i < 8 * |a| && a[i / 8] == b[i / 8]
    ensures MessageBits(a)[i] == MessageBits(b)[i]
  {
    assert i == 8 * (i / 8) + i % 8;
    BitOfByte(a, i / 8, i % 8);
    BitOfByte(b, i / 8, i % 8);
  }

  lemma WindowParts(d: seq<bool>, lo: nat, hi: nat)
    requires lo <= hi <= |d| && forall i :: 0 <= i < |d| && !(lo <= i < hi) ==> !d[i]
    ensures d == Zeros(lo) + d[lo..hi] + Zeros(|d| - lo - (hi - lo))
  {
  }

  /** Three consecutive bytes outside the checksum: no error confined to them passes. */
  lemma ThreeBytesDetected(m: Image, n: Image, from: nat)
    requires Verifies(m) && Verifies(n) && CRC_SIZE <= from <= FLIT_SIZE - 3
    requires forall i :: 0 <= i < FLIT_SIZE && !(from <= i < from + 3) ==> m[i] == n[i]
    ensures m == n
  {
    ByteWindow(Covered(m), Covered(n), from, 3);
    assert m[..CRC_SIZE] == n[..CRC_SIZE];
    var d := Differences(MessageBits(Covered(m)), MessageBits(Covered(n)));
    ShortBurstDetected(m, n, 8 * from, d[8 * from..8 * (from + 3)]);
  }

  /** Two flits that differ within one byte, wherever it is, cannot both verify. */
  lemma OneByteDetected(m: Image, n: Image, at: nat)
    requires Verifies(m) && Verifies(n) && at < FLIT_SIZE
    requires forall i :: 0 <= i < FLIT_SIZE && i != at ==> m[i] == n[i]
    ensures m == n
  {
    if at < CRC_SIZE {
      assert Covered(m) == Covered(n);
      FromLeInjective(m[..CRC_SIZE], n[..CRC_SIZE]);
      assert m == m[..CRC_SIZE] + Covered(m)[CRC_SIZE..];
      assert n == n[..CRC_SIZE] + Covered(n)[CRC_SIZE..];
    } else {
      var from := if at <= FLIT_SIZE - 3 then at else FLIT_SIZE - 3;
      ThreeBytesDetected(m, n, from);
    }
  }

  // ---------------------------------------------------------------- what gets through

  lemma {:induction false} BitsOfXor(a: nat, b: nat, k: nat, i: nat)
    requires i < k
    ensures (Bits(Xor(a, b), k)[i] != Bits(a, k)[i]) == Bits(b, k)[i]
    decreases k
  {
    var x := Xor(a, b);
    XorHalves(a, b);
    if i == 0 {
      assert Bits(x, k)[0] == (x % 2 == 1) && Bits(a, k)[0] == (a % 2 == 1) && Bits(b, k)[0] == (b % 2 == 1);
    } else {
      BitsOfXor(a / 2, b / 2, k - 1, i - 1);
      BitsTail(a, k, i);
      BitsTail(b, k, i);
      BitsTail(x, k, i);
    }
  }

  lemma {:induction false} BitsTail(v: nat, k: nat, i: nat)
    requires 0 < i < k
    ensures Bits(v, k)[i] == Bits(v / 2, k - 1)[i - 1]
  {
  }

  /** The bytes of LOST. */
  function LostBytes(): seq<byte> {
    [0x83, 0xDE, 0xB8, 0x3D]
  }

  function Corrupted(m: Image, from: nat): (n: Image)
    requires CRC_SIZE <= from <= FLIT_SIZE - 4
    ensures forall i :: 0 <= i < FLIT_SIZE ==>
              n[i] == if from <= i < from + 4 then XorByte(m[i], LostBytes()[i - from]) else m[i]
  {
    seq(FLIT_SIZE, i requires 0 <= i < FLIT_SIZE =>
      if from <= i < from + 4 then XorByte(m[i], LostBytes()[i - from]) else m[i])
  }

  function XorByte(a: byte, b: byte): byte {
    assert Pow2(8) == 256;
    XorFits(a, b, 8);
    Xor(a, b)
  }

  lemma {:induction false} BitsExtend(v: nat, k: nat)
    requires v < Pow2(k)
    ensures Bits(v, k + 2) == Bits(v, k) + Zeros(2)
    decreases k
  {
    if k > 0 {
      BitsExtend(v / 2, k - 1);
    } else {
      assert Bits(0, 2) == [false] + Bits(0, 1);
      assert Bits(0, 1) == [false] + Bits(0, 0);
    }
  }

  lemma {:induction false} MessageCons(x: byte, rest: seq<byte>)
    ensures MessageBits([x] + rest) == Bits(x, 8) + MessageBits(rest)
  {
    assert ([x] + rest)[1..] == rest;
  }

  lemma FourBytesOfBits(a: byte, b: byte, c: byte, d: byte)
    ensures MessageBits([a, b, c, d]) == Bits(a, 8) + (Bits(b, 8) + (Bits(c, 8) + (Bits(d, 8) + [])))
  {
    MessageCons(a, [b, c, d]);
    MessageCons(b, [c, d]);
    MessageCons(c, [d]);
    MessageCons(d, []);
    assert [a] + [b, c, d] == [a, b, c, d] && [b] + [c, d] == [b, c, d] && [c] + [d] == [c, d] && [d] + [] == [d];
  }

  lemma BytesUsed()
    ensures Pow2(6) == 64 && Pow2(8) == 256
  {
  }

  lemma LostBits()
    ensures var w := MessageBits(LostBytes());
            |w| == 32 && w == w[..30] + Zeros(2) && Value(w[..30]) == LOST
  {
    FourBytesOfBits(0x83, 0xDE, 0xB8, 0x3D);
    BytesUsed();
    BitsExtend(0x3D, 6);
    ZerosLast(Bits(0x83, 8), Bits(0xDE, 8), Bits(0xB8, 8), Bits(0x3D, 6), Zeros(2));
    LostValue();
  }

  lemma {:induction false} ZerosLast(a: seq<bool>, b: seq<bool>, c: seq<bool>, d: seq<bool>, z: seq<bool>)
    ensures var v := a + (b + (c + d));
            var w := a + (b + (c + ((d + z) + [])));
            w == v + z && w[..|a| + |b| + |c| + |d|] == v
  {
    assert (a + (b + (c + d))) + z == a + (b + (c + ((d + z) + [])));
  }

  lemma LostValue()
    ensures Value(Bits(0x83, 8) + (Bits(0xDE, 8) + (Bits(0xB8, 8) + Bits(0x3D, 6)))) == LOST
  {
    BytesUsed();
    BitsValue(0x83, 8);
    BitsValue(0xDE, 8);
    BitsValue(0xB8, 8);
    BitsValue(0x3D, 6);
    ValueJoin(Bits(0xB8, 8), Bits(0x3D, 6));
    ValueJoin(Bits(0xDE, 8), Bits(0xB8, 8) + Bits(0x3D, 6));
    ValueJoin(Bits(0x83, 8), Bits(0xDE, 8) + (Bits(0xB8, 8) + Bits(0x3D, 6)));
  }

  lemma {:induction false} ValueJoin(a: seq<bool>, b: seq<bool>)
    ensures Value(a + b) == Value(a) + Pow2(|a|) * Value(b)
  {
    if a == [] {
      assert a + b == b;
    } else {
      assert (a + b)[1..] == a[1..] + b;
      ValueJoin(a[1..], b);
    }
  }

  /**
   Four bytes are too many: any flit that verifies can be changed in any four consecutive
   covered bytes so that it still verifies.
   */
  lemma {:induction false} FourBytesCanPass(m: Image, from: nat)
    requires Verifies(m) && CRC_SIZE <= from <= FLIT_SIZE - 4
    ensures Verifies(Corrupted(m, from)) && Corrupted(m, from) != m
  {
    var n := Corrupted(m, from);
    assert n[..CRC_SIZE] == m[..CRC_SIZE];
    CorruptedWithin(m, from);
    BurstPassesIff(m, n, 8 * from, MessageBits(LostBytes())[..30]);
    CorruptedDiffers(m, from);
  }

  lemma {:induction false} CorruptedDiffers(m: Image, from: nat)
    requires CRC_SIZE <= from <= FLIT_SIZE - 4
    ensures Corrupted(m, from) != m
  {
    BitsOfXor(m[from], 0x83, 8, 0);
    assert Corrupted(m, from)[from] == Xor(m[from], 0x83);
  }

  /** The four bytes differ in the pattern that the register loses. */
  lemma {:induction false} CorruptedWithin(m: Image, from: nat)
    requires CRC_SIZE <= from <= FLIT_SIZE - 4
    ensures |MessageBits(LostBytes())| == 32 && Value(MessageBits(LostBytes())[..30]) == LOST
    ensures DifferWithin(MessageBits(Covered(m)), MessageBits(Covered(Corrupted(m, from))), 8 * from,
                         MessageBits(LostBytes())[..30])
  {
    var n := Corrupted(m, from);
    ByteWindow(Covered(m), Covered(n), from, 4);
    LostBits();
    CorruptedBits(m, from);
    NarrowWindow(MessageBits(Covered(m)), MessageBits(Covered(n)), 8 * from, MessageBits(LostBytes()), 30);
  }

  lemma {:induction false} CorruptedBits(m: Image, from: nat)
    requires CRC_SIZE <= from <= FLIT_SIZE - 4
    ensures Differences(MessageBits(Covered(m)), MessageBits(Covered(Corrupted(m, from))))[8 * from..8 * (from + 4)]
              == MessageBits(LostBytes())
  {
    var w := Differences(MessageBits(Covered(m)), MessageBits(Covered(Corrupted(m, from))))[8 * from..8 * (from + 4)];
    forall i | 0 <= i < 32 ensures w[i] == MessageBits(LostBytes())[i] {
      CorruptedBit(m, from, i / 8, i % 8);
    }
  }

  lemma CorruptedBit(m: Image, from: nat, j: nat, k: nat)
    requires CRC_SIZE <= from <= FLIT_SIZE - 4 && j < 4 && k < 8
    ensures var a, b := MessageBits(Covered(m)), MessageBits(Covered(Corrupted(m, from)));
            (a[8 * (from + j) + k] != b[8 * (from + j) + k]) == MessageBits(LostBytes())[8 * j + k]
  {
    PairBit(Covered(m), Covered(Corrupted(m, from)), LostBytes(), from + j, j, k);
  }

  lemma PairBit(a: seq<byte>, b: seq<byte>, x: seq<byte>, i: nat, j: nat, k: nat)
    requires i < |a| == |b| && j < |x| && k < 8 && b[i] == Xor(a[i], x[j])
    ensures (MessageBits(a)[8 * i + k] != MessageBits(b)[8 * i + k]) == MessageBits(x)[8 * j + k]
  {
    BitOfByte(a, i, k);
    BitOfByte(b, i, k);
    BitOfByte(x, j, k);
    BitsOfXor(a[i], x[j], 8, k);
  }

  /** The checksum is what is left of all ones: the register started there, fed bit by bit, and turned over. */
  lemma {:induction false} ChecksumIsComplement(data: seq<byte>)
    ensures CrcBuffer(data) + Serial(0xFFFF_FFFF, MessageBits(data)) == 0xFFFF_FFFF
  {
    PowersUsed();
    BytesAreBits(WORD - 1, data);
    CrcBytesFit(WORD - 1, data);
    assert Pow2(32) == WORD;
    XorOnes(CrcBytes(WORD - 1, data), 32, WORD - 1, CrcBuffer(data));
  }

  /** A window that ends in agreements may be cut short. */
  lemma {:induction false} NarrowWindow(a: seq<bool>, b: seq<bool>, at: nat, w: seq<bool>, k: nat)
    requires DifferWithin(a, b, at, w) && k <= |w| && w == w[..k] + Zeros(|w| - k)
    ensures DifferWithin(a, b, at, w[..k])
  {
    assert Zeros(|w| - k) + Zeros(|a| - at - |w|) == Zeros(|a| - at - k);
  }

  // ---------------------------------------------------------------- the code

  method Crc32Byte(crc: nat, b: byte) returns (r: nat)
    requires crc < WORD
    ensures r == CrcByte(crc, b) && r < WORD
  {
    CrcByteFits(crc, b);
    r := Xor(crc, b);
    var i := 0;
    while i < 8
      invariant 0 <= i <= 8 && Shifts(r, 8 - i) == CrcByte(crc, b)
    {
      if r % 2 == 1 {
        r := Xor(r / 2, POLY);
      } else {
        r := r / 2;
      }
      i := i + 1;
    }
  }

  method Crc32Buffer(data: seq<byte>) returns (r: nat)
    ensures r == CrcBuffer(data) && r < WORD
  {
    CrcBufferFits(data);
    var crc: nat := WORD - 1;
    var i := 0;
    while i < |data|
      invariant 0 <= i <= |data| && crc < WORD
      invariant CrcBytes(crc, data[i..]) == CrcBytes(WORD - 1, data)
    {
      assert data[i..][1..] == data[i + 1..];
      crc := Crc32Byte(crc, data[i]);
      i := i + 1;
    }
    r := Xor(crc, WORD - 1);
  }

  type u8 = byte
  type u16 = x: nat | x < 0x1_0000
  type u32 = x: nat | x < WORD
  type u64 = x: nat | x < 0x1_0000_0000_0000_0000

  /** The four bytes after the payload only fill the flit up to its alignment. */
  class Flit {
    var crc: u32
    var seqNum: u32
    var timestamp: u64
    var flitType: u8
    var protocolId: u8
    var payloadLen: u16
    const payload: array<byte>
    const padding: array<byte>

    ghost predicate Valid() {
      payload.Length == PAYLOAD_SIZE && padding.Length == 4 && payload != padding
    }

    constructor ()
      ensures Valid() && fresh(payload) && fresh(padding)
    {
      crc, seqNum, timestamp, flitType, protocolId, payloadLen := 0, 0, 0, 0, 0, 0;
      payload := new byte[PAYLOAD_SIZE](_ => 0);
      padding := new byte[4](_ => 0);
    }

    /** The flit in memory, little-endian, in the order of its fields. */
    function Memory(): (m: Image)
      requires Valid()
      reads this, payload, padding
      ensures FromLe(m[..CRC_SIZE]) == crc
    {
      assert Pow256(4) == WORD;
      LeReads(crc, 4);
      var m := Laid(crc, seqNum, timestamp, flitType, protocolId, payloadLen, payload[..], padding[..]);
      assert m[..CRC_SIZE] == Le(crc, 4);
      m
    }
  }

  function Laid(crc: u32, seqNum: u32, timestamp: u64, flitType: u8, protocolId: u8, payloadLen: u16,
                payload: seq<byte>, padding: seq<byte>): (m: seq<byte>)
    ensures |m| == 20 + |payload| + |padding|
  {
    Le(crc, 4) + Le(seqNum, 4) + Le(timestamp, 8) + [flitType] + [protocolId] + Le(payloadLen, 2) + payload + padding
  }

  /** Every field is read back from its place in the image. */
  lemma {:induction false} LaidReads(crc: u32, seqNum: u32, timestamp: u64, flitType: u8, protocolId: u8,
                                     payloadLen: u16, payload: seq<byte>, padding: seq<byte>, m: seq<byte>)
    requires |payload| == 32 && |padding| == 4
    requires m == Laid(crc, seqNum, timestamp, flitType, protocolId, payloadLen, payload, padding)
    ensures |m| == 56 && FromLe(m[0..4]) == crc && FromLe(m[4..8]) == seqNum && FromLe(m[8..16]) == timestamp
    ensures m[16] == flitType && m[17] == protocolId && FromLe(m[18..20]) == payloadLen
    ensures m[20..52] == payload && m[52..56] == padding
  {
    assert m[0..4] == Le(crc, 4) && m[4..8] == Le(seqNum, 4) && m[8..16] == Le(timestamp, 8);
    assert m[18..20] == Le(payloadLen, 2);
    LeReads(crc, 4);
    LeReads(seqNum, 4);
    LeReads(timestamp, 8);
    LeReads(payloadLen, 2);
  }

  function Pow256(k: nat): nat {
    if k == 0 then 1 else 256 * Pow256(k - 1)
  }

  lemma {:induction false} LeReads(v: nat, k: nat)
    requires v < Pow256(k)
    ensures FromLe(Le(v, k)) == v
  {
    if k > 0 {
      LeReads(v / 256, k - 1);
    }
  }

  lemma {:induction false} LaidZeros(payload: seq<byte>, padding: seq<byte>)
    requires payload == seq(PAYLOAD_SIZE, _ => 0) && padding == seq(4, _ => 0)
    ensures Laid(0, 0, 0, 0, 0, 0, payload, padding) == seq(FLIT_SIZE, _ => 0)
  {
    LeZero(2);
    LeZero(4);
    LeZero(8);
  }

  method FlitCrc32(flit: Flit) returns (r: nat)
    requires flit.Valid()
    ensures r == CrcBuffer(Covered(flit.Memory())) && r < WORD
  {
    var buf: Image := flit.Memory();
    buf := [0, 0, 0, 0] + buf[CRC_SIZE..];
    r := Crc32Buffer(buf);
  }

  method FlitVerify(flit: Flit) returns (ok: bool)
    requires flit.Valid()
    ensures ok <==> Verifies(flit.Memory())
  {
    var computed := FlitCrc32(flit);
    ok := computed == flit.crc;
  }

  /** Zeroes the whole flit. */
  method Clear(flit: Flit)
    requires flit.Valid()
    modifies flit, flit.payload, flit.padding
    ensures flit.Memory() == seq(FLIT_SIZE, _ => 0)
    ensures flit.seqNum == 0 && flit.timestamp == 0 && flit.flitType == 0
    ensures forall i :: 0 <= i < PAYLOAD_SIZE ==> flit.payload[i] == 0
  {
    flit.crc, flit.seqNum, flit.timestamp, flit.flitType, flit.protocolId, flit.payloadLen := 0, 0, 0, 0, 0, 0;
    forall i | 0 <= i < PAYLOAD_SIZE { flit.payload[i] := 0; }
    forall i | 0 <= i < 4 { flit.padding[i] := 0; }
    assert flit.payload[..] == seq(PAYLOAD_SIZE, _ => 0);
    assert flit.padding[..] == seq(4, _ => 0);
    LaidZeros(flit.payload[..], flit.padding[..]);
  }

  lemma {:induction false} LeZero(k: nat)
    ensures Le(0, k) == seq(k, _ => 0)
  {
    if k > 0 { LeZero(k - 1); }
  }

  /** Stores the checksum of the flit in it; the flit then verifies. */
  method Seal(flit: Flit)
    requires flit.Valid()
    modifies flit`crc
    ensures Verifies(flit.Memory())
  {
    ghost var before := flit.Memory();
    var sum := FlitCrc32(flit);
    flit.crc := sum;
    SameCovered(flit, before);
  }

  lemma SameCovered(flit: Flit, before: Image)
    requires flit.Valid() && forall i :: CRC_SIZE <= i < FLIT_SIZE ==> before[i] == flit.Memory()[i]
    ensures Covered(flit.Memory()) == Covered(before)
  {
  }

  /**
   Clears the flit, stores the protocol and at most 32 bytes of data, and seals it with its
   checksum. Without data the length is stored all the same, over a payload of zeros. What it
   leaves behind always verifies.
   */
  method FlitPack(flit: Flit, protocol: u8, data: array?<byte>, len: nat)
    requires flit.Valid() && len < 0x1_0000 && data != flit.payload && data != flit.padding
    requires data != null ==> data.Length >= if len > PAYLOAD_SIZE then PAYLOAD_SIZE else len
    modifies flit, flit.payload, flit.padding
    ensures Verifies(flit.Memory())
    ensures flit.protocolId == protocol && flit.payloadLen == (if len > PAYLOAD_SIZE then PAYLOAD_SIZE else len)
    ensures forall i :: 0 <= i < PAYLOAD_SIZE ==>
              flit.payload[i] == if data != null && i < flit.payloadLen then data[i] else 0
    ensures flit.seqNum == 0 && flit.timestamp == 0 && flit.flitType == 0
  {
    Clear(flit);
    flit.protocolId := protocol;
    var kept := if len > PAYLOAD_SIZE then PAYLOAD_SIZE else len;
    flit.payloadLen := kept;
    if data != null && kept > 0 {
      forall i | 0 <= i < kept { flit.payload[i] := data[i]; }
    }
    Seal(flit);
  }
}
