/** The CRC-16 of modem/ymodem.cpp: the bit loops, and what the value they compute means. */
module Crc16 {
  import opened Bytes
  import opened Gf2

  /** The positions of the bits of a 16-bit value, as shift distances. */
  function Place(i: nat): bv32
    requires i < 16
  {
    match i
    case 0 => 0 case 1 => 1 case 2 => 2 case 3 => 3 case 4 => 4 case 5 => 5 case 6 => 6 case 7 => 7
    case 8 => 8 case 9 => 9 case 10 => 10 case 11 => 11 case 12 => 12 case 13 => 13 case 14 => 14 case 15 => 15
  }

  predicate Bit(x: bv32, i: nat)
    requires i < 16
  {
    (x >> Place(i)) & 1 == 1
  }

  predicate OctetBit(b: byte, i: nat)
    requires i < 8
  {
    Bit(b as bv32, i)
  }

  /** The bits of an octet, most significant first: the order they enter the register. */
  function Bits8(b: byte): (m: Bits)
    ensures |m| == 8
  {
    seq(8, i requires 0 <= i < 8 => OctetBit(b, 7 - i))
  }

  /** The low sixteen bits of the 32-bit working register, whatever is above them. */
  function Low16(x: bv32): Register {
    seq(16, i requires 0 <= i < 16 => Bit(x, 15 - i))
  }

  /** The octet with the given bits. */
  function Octet(m: Bits): byte
    requires |m| == 8
  {
    Assemble(m[0], m[1], m[2], m[3], m[4], m[5], m[6], m[7])
  }

  function Assemble(b7: bool, b6: bool, b5: bool, b4: bool, b3: bool, b2: bool, b1: bool, b0: bool): byte {
    (if b7 then 0x80 else 0) | (if b6 then 0x40 else 0) | (if b5 then 0x20 else 0) | (if b4 then 0x10 else 0) |
    (if b3 then 0x08 else 0) | (if b2 then 0x04 else 0) | (if b1 then 0x02 else 0) | (if b0 then 0x01 else 0)
  }

  lemma AssembledBits(b7: bool, b6: bool, b5: bool, b4: bool, b3: bool, b2: bool, b1: bool, b0: bool)
    ensures var x := Assemble(b7, b6, b5, b4, b3, b2, b1, b0) as bv32;
            Bit(x, 7) == b7 && Bit(x, 6) == b6 && Bit(x, 5) == b5 && Bit(x, 4) == b4 &&
            Bit(x, 3) == b3 && Bit(x, 2) == b2 && Bit(x, 1) == b1 && Bit(x, 0) == b0
  {
  }

  lemma AssembleInverse(b: byte)
    ensures var x := b as bv32;
            Assemble(Bit(x, 7), Bit(x, 6), Bit(x, 5), Bit(x, 4), Bit(x, 3), Bit(x, 2), Bit(x, 1), Bit(x, 0)) == b
  {
  }

  lemma Bits8Octet(m: Bits)
    requires |m| == 8
    ensures Bits8(Octet(m)) == m
  {
    AssembledBits(m[0], m[1], m[2], m[3], m[4], m[5], m[6], m[7]);
    hide Assemble, Bit;
    forall i | 0 <= i < 8
      ensures Bits8(Octet(m))[i] == m[i]
    {
    }
  }

  lemma OctetBits8(b: byte)
    ensures Octet(Bits8(b)) == b
  {
    AssembleInverse(b);
  }

  function BitsOf(data: seq<byte>): (m: Bits)
    ensures |m| == 8 * |data|
  {
    if data == [] then [] else Bits8(data[0]) + BitsOf(data[1..])
  }

  lemma {:induction false} BitsOfAppend(a: seq<byte>, b: seq<byte>)
    ensures BitsOf(a + b) == BitsOf(a) + BitsOf(b)
    decreases |a|
  {
    if a == [] {
      assert a + b == b;
    } else {
      BitsOfAppend(a[1..], b);
      assert (a + b)[1..] == a[1..] + b;
    }
  }

  lemma {:induction false} BitsOfInjective(a: seq<byte>, b: seq<byte>)
    requires |a| == |b| && BitsOf(a) == BitsOf(b)
    ensures a == b
    decreases |a|
  {
    if a == [] {
    } else {
      assert BitsOf(a)[..8] == Bits8(a[0]) && BitsOf(b)[..8] == Bits8(b[0]);
      assert BitsOf(a)[8..] == BitsOf(a[1..]) && BitsOf(b)[8..] == BitsOf(b[1..]);
      OctetBits8(a[0]);
      OctetBits8(b[0]);
      BitsOfInjective(a[1..], b[1..]);
      assert a == [a[0]] + a[1..] && b == [b[0]] + b[1..];
    }
  }

  /** The remainder register after the message and sixteen zero bits have been shifted through. */
  function Crc(data: seq<byte>): Register {
    Run(ZERO, BitsOf(data) + Zeros(16))
  }

  // ------------------------------------------------------------------ the code

  /** The two things one pass of the loop in UpdateCRC16 does to the 32-bit register. */
  function Doubled(crc: bv32, bit: bool): bv32 {
    if bit then (crc << 1) + 1 else crc << 1
  }

  function Folded(crc: bv32): bv32 {
    if crc & 0x10000 != 0 then crc ^ 0x1021 else crc
  }

  lemma PlaceBelow(i: nat)
    requires 0 < i < 16
    ensures Place(i) == Place(i - 1) + 1 && 0 < Place(i) < 16
  {
  }

  lemma BitOfXor(x: bv32, y: bv32, i: bv32)
    requires i < 32
    ensures ((x ^ y) >> i) & 1 == (((x >> i) & 1) ^ ((y >> i) & 1))
  {
  }

  lemma BitOfDouble(x: bv32, b: bool, i: bv32)
    requires 0 < i < 32
    ensures (Doubled(x, b) >> i) & 1 == (x >> (i - 1)) & 1
  {
  }

  lemma GeneratorConstant(i: nat)
    requires i < 16
    ensures Bit(0x1021, i) == Tap(15 - i)
  {
  }

  lemma DoubledBit(crc: bv32, bit: bool, i: nat)
    requires i < 16
    ensures Bit(Doubled(crc, bit), i) == if i == 0 then bit else Bit(crc, i - 1)
  {
    if i == 0 {
      BitOfDoubleLow(crc, bit);
    } else {
      PlaceBelow(i);
      BitOfDouble(crc, bit, Place(i));
    }
  }

  lemma BitOfDoubleLow(x: bv32, b: bool)
    ensures (Doubled(x, b) >> 0) & 1 == 1 <==> b
  {
  }

  lemma DoubledCarry(crc: bv32, bit: bool)
    ensures (Doubled(crc, bit) & 0x10000 != 0) == Bit(crc, 15)
  {
  }

  lemma FoldedBit(crc: bv32, i: nat)
    requires i < 16
    ensures Bit(Folded(crc), i) == (Bit(crc, i) != (crc & 0x10000 != 0 && Tap(15 - i)))
  {
    GeneratorConstant(i);
    BitOfXor(crc, 0x1021, Place(i));
  }

  /** The upper bits are junk; the lower sixteen are the division register. */
  lemma ShiftedIsStep(crc: bv32, bit: bool)
    ensures Low16(Folded(Doubled(crc, bit))) == Step(Low16(crc), bit)
  {
    DoubledCarry(crc, bit);
    hide Step, Folded, Doubled, Bit;
    var d, r := Doubled(crc, bit), Low16(crc);
    forall i | 0 <= i < 16
      ensures Low16(Folded(d))[i] == Step(r, bit)[i]
    {
      DoubledBit(crc, bit, 15 - i);
      FoldedBit(d, 15 - i);
      StepAt(r, bit, i);
    }
  }

  function LeftShift(w: bv32): bv32 {
    w << 1
  }

  predicate BitSet(w: bv32, mask: bv32) {
    w & mask != 0
  }

  /** The input word after `k` shifts: the octet with a sentinel one bit in front of it. */
  function Sentinel(b: byte, k: nat): bv32
    requires k <= 8
  {
    if k == 0 then (b as bv32) | 0x100 else LeftShift(Sentinel(b, k - 1))
  }

  lemma {:induction false} SentinelShift(b: byte, k: nat)
    requires k <= 8
    ensures Sentinel(b, k) == ((b as bv32) | 0x100) << Place(k)
  {
    if k == 0 {
    } else {
      SentinelShift(b, k - 1);
      PlaceBelow(k);
      SentinelWord((b as bv32) | 0x100, Place(k));
    }
  }

  /** Bit 8 presents the octet's bits in order; bit 16 is reached by the sentinel after eight shifts. */
  lemma SentinelBits(b: byte, k: nat)
    requires 1 <= k <= 8
    ensures BitSet(Sentinel(b, k), 0x100) == Bits8(b)[k - 1]
    ensures BitSet(Sentinel(b, k), 0x10000) <==> k == 8
  {
    PlaceBelow(k);
    SentinelShift(b, k);
    assert Place(8 - k) == 8 - Place(k);
    SentinelWord2(b as bv32, Place(k));
  }

  lemma SentinelWord(w: bv32, k: bv32)
    requires 0 < k <= 8
    ensures w << k == (w << (k - 1)) << 1
  {
  }

  lemma SentinelWord2(b: bv32, k: bv32)
    requires b < 0x100 && 0 < k <= 8
    ensures ((b | 0x100) << k) & 0x100 != 0 <==> (b >> (8 - k)) & 1 == 1
    ensures ((b | 0x100) << k) & 0x10000 != 0 <==> k == 8
  {
  }

  /** What the register of UpdateCRC16 holds after `k` passes. */
  ghost predicate AfterPasses(b: byte, r: Register, k: nat, crc: bv32) {
    k <= 8 && Low16(crc) == Run(r, Bits8(b)[..k])
  }

  lemma OnePass(b: byte, r: Register, k: nat, crc: bv32)
    requires k < 8 && AfterPasses(b, r, k, crc)
    ensures Sentinel(b, k + 1) == LeftShift(Sentinel(b, k))
    ensures BitSet(Sentinel(b, k + 1), 0x10000) <==> k + 1 == 8
    ensures forall c: bv32 :: Low16(c) == Step(Low16(crc), BitSet(Sentinel(b, k + 1), 0x100)) ==> AfterPasses(b, r, k + 1, c)
  {
    SentinelBits(b, k + 1);
    OneMoreBit(r, crc, Bits8(b), k);
    NextWord(b, k);
    hide Sentinel, Bits8, Low16, Step, BitSet, LeftShift;
  }

  lemma NextWord(b: byte, k: nat)
    requires k < 8
    ensures Sentinel(b, k + 1) == LeftShift(Sentinel(b, k))
  {
  }

  lemma BeforeFirstPass(b: byte, crc: bv32)
    ensures AfterPasses(b, Low16(crc), 0, crc) && (b as bv32) | 0x100 == Sentinel(b, 0)
  {
  }

  lemma OneMoreBit(r: Register, crc: bv32, bits: Bits, k: nat)
    requires k < |bits| && Low16(crc) == Run(r, bits[..k])
    ensures Step(Low16(crc), bits[k]) == Run(r, bits[..k + 1])
  {
    assert bits[..k + 1] == bits[..k] + [bits[k]] && [bits[k]][1..] == [];
    RunAppend(r, bits[..k], [bits[k]]);
  }

  lemma LastPass(b: byte, r: Register, crc: bv32)
    requires AfterPasses(b, r, 8, crc)
    ensures Low16(crc) == Run(r, Bits8(b))
  {
    assert Bits8(b)[..8] == Bits8(b);
  }

  /** Shift left and bring in the next message bit. */
  method ShiftIn32(crcIn: bv32, bit: bool) returns (crc: bv32)
    ensures crc == Doubled(crcIn, bit)
  {
    crc := crcIn << 1;
    if bit {
      crc := crc + 1;
    }
  }

  /** Subtract the generator, whose leading term the code leaves out, when bit 16 is set. */
  method Reduce32(crcIn: bv32) returns (crc: bv32)
    ensures crc == Folded(crcIn)
  {
    crc := crcIn;
    if crc & 0x10000 != 0 {
      crc := crc ^ 0x1021;
    }
  }

  /** One pass of the loop is one step of the division. */
  method ShiftPass(crcIn: bv32, bit: bool) returns (crc: bv32)
    ensures Low16(crc) == Step(Low16(crcIn), bit)
  {
    hide *;
    ShiftedIsStep(crcIn, bit);
    crc := ShiftIn32(crcIn, bit);
    crc := Reduce32(crc);
  }

  /** The do-while loop of UpdateCRC16, on the 32-bit register. */
  method ShiftOctet(crcIn: bv32, b: byte) returns (crc: bv32)
    ensures Low16(crc) == Run(Low16(crcIn), Bits8(b))
  {
    crc := crcIn;
    var word: bv32 := (b as bv32) | 0x100;
    var again := true;
    ghost var k := 0;
    hide *;
    BeforeFirstPass(b, crcIn);
    while again
      invariant if again then k < 8 else k == 8
      invariant word == Sentinel(b, k) && AfterPasses(b, Low16(crcIn), k, crc)
      decreases 8 - k
    {
      OnePass(b, Low16(crcIn), k, crc);
      word := LeftShift(word);
      crc := ShiftPass(crc, BitSet(word, 0x100));
      k := k + 1;
      again := !BitSet(word, 0x10000);
    }
    LastPass(b, Low16(crcIn), crc);
  }

  method UpdateCRC16(crcIn: bv16, b: byte) returns (r: bv16)
    ensures Low16(r as bv32) == Run(Low16(crcIn as bv32), Bits8(b))
  {
    var crc := ShiftOctet(crcIn as bv32, b);
    hide *;
    r := (crc & 0xffff) as bv16;
    Masked(crc, r as bv32);
  }

  lemma Masked(crc: bv32, masked: bv32)
    requires masked == crc & 0xffff
    ensures Low16(masked) == Low16(crc)
  {
    forall i | 0 <= i < 16
      ensures Bit(crc & 0xffff, i) == Bit(crc, i)
    {
      BitOfMask(crc, Place(i));
    }
  }

  lemma BitOfMask(x: bv32, i: bv32)
    requires i < 16
    ensures ((x & 0xffff) >> i) & 1 == (x >> i) & 1
  {
  }

  lemma BitsOfOne(b: byte)
    ensures BitsOf([b]) == Bits8(b)
  {
    assert [b][1..] == [] && Bits8(b) + [] == Bits8(b);
  }

  lemma OneMoreOctet(message: seq<byte>, i: nat)
    requires i < |message|
    ensures Run(ZERO, BitsOf(message[..i + 1])) == Run(Run(ZERO, BitsOf(message[..i])), Bits8(message[i]))
  {
    BitsOfAppend(message[..i], [message[i]]);
    assert message[..i + 1] == message[..i] + [message[i]];
    BitsOfOne(message[i]);
    RunAppend(ZERO, BitsOf(message[..i]), Bits8(message[i]));
  }

  lemma TwoZeroOctets(message: seq<byte>)
    ensures Crc(message) == Run(Run(Run(ZERO, BitsOf(message)), Bits8(0)), Bits8(0))
  {
    ZeroOctet();
    RunAppend(ZERO, BitsOf(message), Bits8(0) + Bits8(0));
    RunAppend(Run(ZERO, BitsOf(message)), Bits8(0), Bits8(0));
  }

  lemma EmptyRegister()
    ensures Low16(0) == Run(ZERO, BitsOf([]))
  {
    forall i | 0 <= i < 16
      ensures !Low16(0)[i]
    {
      BitOfZero(Place(15 - i));
    }
  }

  method CalCRC16(data: array<byte>, start: nat, size: nat) returns (r: bv16)
    requires start + size <= data.Length
    ensures Low16(r as bv32) == Crc(data[start..start + size])
  {
    ghost var message := data[start..start + size];
    hide *;
    var crc: bv16 := 0;
    var i := 0;
    EmptyRegister();
    assert message[..0] == [];
    while i < size
      invariant i <= size
      invariant Low16(crc as bv32) == Run(ZERO, BitsOf(message[..i]))
    {
      OneMoreOctet(message, i);
      crc := UpdateCRC16(crc, data[start + i]);
      i := i + 1;
    }
    assert message[..size] == message;
    TwoZeroOctets(message);
    crc := UpdateCRC16(crc, 0);
    crc := UpdateCRC16(crc, 0);
    r := crc;
  }

  lemma ZeroOctet()
    ensures Bits8(0) + Bits8(0) == Zeros(16)
  {
    forall i | 0 <= i < 8
      ensures !Bits8(0)[i]
    {
      BitOfZero(Place(7 - i));
    }
  }

  lemma BitOfZero(i: bv32)
    requires i < 16
    ensures ((0 as bv32) >> i) & 1 == 0
  {
  }

  // ------------------------------------------------------------------ what the value means

  lemma CrcDivides(data: seq<byte>) returns (q: Bits)
    ensures Divides(BitsOf(data) + Zeros(16), q, Crc(data))
  {
    var p := BitsOf(data) + Zeros(16);
    RunAppend(ZERO, p[..16], p[16..]);
    ShiftIn(p[..16]);
    assert p == p[..16] + p[16..] && Zeros(0) + p[..16] == p[..16];
    LongDivision(p[..16], p[16..]);
    q := Quotient(p[..16], p[16..]);
  }

  /** Some quotient makes `r` the remainder of M(x) * x^16 divided by the generator. */
  ghost predicate IsRemainder(data: seq<byte>, r: Register) {
    exists q: Bits :: Divides(BitsOf(data) + Zeros(16), q, r)
  }

  /** The CRC is the remainder of M(x) * x^16, and nothing else is. */
  lemma CrcIsRemainder(data: seq<byte>, r: Register)
    ensures r == Crc(data) <==> IsRemainder(data, r)
  {
    var q0 := CrcDivides(data);
    if IsRemainder(data, r) {
      var q: Bits :| Divides(BitsOf(data) + Zeros(16), q, r);
      DivisionIsUnique(BitsOf(data) + Zeros(16), q, r, q0, Crc(data));
    }
  }

  lemma IsolateWindow(d: Bits, start: nat, end: nat)
    requires start <= end <= |d|
    requires forall i :: 0 <= i < |d| && !(start <= i < end) ==> !d[i]
    ensures d + Zeros(16) == Zeros(start) + (d[start..end] + Zeros(|d| - end + 16))
  {
  }

  lemma WindowLeavesRemainder(start: nat, w: Bits, rest: nat, i: nat)
    requires i < |w| <= 16 && w[i]
    ensures Run(ZERO, Zeros(start) + (w + Zeros(rest))) != ZERO
  {
    ZeroRunIsInjective(ZERO, start);
    RunAppend(ZERO, Zeros(start), w + Zeros(rest));
    RunAppend(ZERO, w, Zeros(rest));
    ShiftIn(w);
    assert (Zeros(16 - |w|) + w)[16 - |w| + i];
    ZeroRunIsInjective(Zeros(16 - |w|) + w, rest);
  }

  /** A nonzero pattern confined to sixteen consecutive places has a nonzero remainder. */
  lemma BurstLeavesRemainder(d: Bits, start: nat)
    requires start <= |d| && d != Zeros(|d|)
    requires forall i :: 0 <= i < |d| && !(start <= i < start + 16) ==> !d[i]
    ensures Run(ZERO, d + Zeros(16)) != ZERO
  {
    var end := if start + 16 <= |d| then start + 16 else |d|;
    IsolateWindow(d, start, end);
    var i :| 0 <= i < |d| && d[i];
    assert d[start..end][i - start];
    WindowLeavesRemainder(start, d[start..end], |d| - end + 16, i - start);
  }

  lemma CrcOfDifference(a: seq<byte>, b: seq<byte>)
    requires |a| == |b|
    ensures Xor(Crc(a), Crc(b)) == Run(ZERO, Xor(BitsOf(a), BitsOf(b)) + Zeros(16))
  {
    Linear(ZERO, ZERO, BitsOf(a) + Zeros(16), BitsOf(b) + Zeros(16));
    assert Xor(ZERO, ZERO) == ZERO;
    assert Xor(BitsOf(a) + Zeros(16), BitsOf(b) + Zeros(16)) == Xor(BitsOf(a), BitsOf(b)) + Zeros(16);
  }

  /** Two different messages whose bits agree outside a window of sixteen have different CRCs. */
  lemma BurstChangesCrc(a: seq<byte>, b: seq<byte>, start: nat)
    requires |a| == |b| && a != b && start <= 8 * |a|
    requires forall i :: 0 <= i < 8 * |a| && !(start <= i < start + 16) ==> BitsOf(a)[i] == BitsOf(b)[i]
    ensures Crc(a) != Crc(b)
  {
    var d := Xor(BitsOf(a), BitsOf(b));
    if d == Zeros(|d|) {
      XorZeroIffEqual(BitsOf(a), BitsOf(b));
      BitsOfInjective(a, b);
    }
    BurstLeavesRemainder(d, start);
    CrcOfDifference(a, b);
    XorZeroIffEqual(Crc(a), Crc(b));
  }

  /** The CRC has as many one bits as the message, modulo two. */
  lemma CrcKeepsParity(data: seq<byte>)
    ensures Ones(Crc(data)) % 2 == Ones(BitsOf(data)) % 2
  {
    RunKeepsParity(ZERO, BitsOf(data) + Zeros(16));
    OnesAppend(BitsOf(data), Zeros(16));
    OnesZeros(16);
  }

  lemma OppositeParities(m: Bits, n: Bits, x: Register, y: Register)
    requires |m| == |n| && Ones(Xor(m, n)) % 2 == 1
    requires Ones(x) % 2 == Ones(m) % 2 && Ones(y) % 2 == Ones(n) % 2
    ensures x != y
  {
    OnesXor(m, n);
  }

  /** Any odd number of flipped bits changes the CRC. */
  lemma OddErrorChangesCrc(a: seq<byte>, b: seq<byte>)
    requires |a| == |b| && Ones(Xor(BitsOf(a), BitsOf(b))) % 2 == 1
    ensures Crc(a) != Crc(b)
  {
    CrcKeepsParity(a);
    CrcKeepsParity(b);
    OppositeParities(BitsOf(a), BitsOf(b), Crc(a), Crc(b));
  }

  /** A payload followed by two octets has residue zero exactly when they are its CRC, high octet first. */
  lemma ResidueZeroIffTrailer(data: seq<byte>, hi: byte, lo: byte)
    ensures Crc(data + [hi, lo]) == ZERO <==> Bits8(hi) + Bits8(lo) == Crc(data)
  {
    var t := Bits8(hi) + Bits8(lo);
    var n := 8 * |data|;
    var m := BitsOf(data);
    BitsOfAppend(data, [hi, lo]);
    BitsOfAppend([hi], [lo]);
    BitsOfOne(hi);
    BitsOfOne(lo);
    assert [hi] + [lo] == [hi, lo];
    assert m + t == Xor(m + Zeros(16), Zeros(n) + t);
    Linear(ZERO, ZERO, m + Zeros(16), Zeros(n) + t);
    assert Xor(ZERO, ZERO) == ZERO;
    RunAppend(ZERO, Zeros(n), t);
    ZeroRunIsInjective(ZERO, n);
    ShiftIn(t);
    assert Zeros(0) + t == t;
    assert Run(ZERO, m + t) == Xor(Crc(data), t);
    RunAppend(ZERO, m + t, Zeros(16));
    ZeroRunIsInjective(Run(ZERO, m + t), 16);
    XorZeroIffEqual(Crc(data), t);
  }

  /** The two octets a sender appends. */
  function Trailer(data: seq<byte>): (t: seq<byte>)
    ensures |t| == 2
  {
    [Octet(Crc(data)[..8]), Octet(Crc(data)[8..])]
  }

  lemma {:induction false} BitsOfZeros(n: nat)
    ensures BitsOf(Repeat(0, n)) == Zeros(8 * n)
    decreases n
  {
    if n == 0 {
    } else {
      BitsOfZeros(n - 1);
      ZeroOctet();
      assert Repeat(0, n)[1..] == Repeat(0, n - 1);
      hide BitsOf, Bits8;
      assert forall i :: 0 <= i < 8 ==> !(Bits8(0) + Bits8(0))[i];
    }
  }

  /** A block of zeros has trailer zero. */
  lemma TrailerOfZeros(n: nat)
    ensures Trailer(Repeat(0, n)) == [0, 0]
  {
    BitsOfZeros(n);
    assert Zeros(8 * n) + Zeros(16) == Zeros(8 * n + 16);
    hide BitsOf, Run;
    ZeroRunIsInjective(ZERO, 8 * n + 16);
    assert ZERO[..8] == ZERO[8..] == Zeros(8);
    OctetOfZeros();
  }

  lemma OctetOfZeros()
    ensures Octet(Zeros(8)) == 0
  {
  }

  /** Splitting the 16-bit value as the sender does gives the trailer. */
  lemma SplitIsTrailer(crc: bv16, data: seq<byte>)
    requires Low16(crc as bv32) == Crc(data)
    ensures [HighOctet(crc), LowOctet(crc)] == Trailer(data)
  {
    SplitBytes(crc);
    OctetBits8(HighOctet(crc));
    OctetBits8(LowOctet(crc));
  }

  function HighOctet(crc: bv16): byte {
    ((crc >> 8) & 0xFF) as byte
  }

  function LowOctet(crc: bv16): byte {
    (crc & 0xFF) as byte
  }

  lemma SplitBytes(crc: bv16)
    ensures Bits8(HighOctet(crc)) == Low16(crc as bv32)[..8] && Bits8(LowOctet(crc)) == Low16(crc as bv32)[8..]
  {
    SplitWidths(crc);
    hide HighOctet, LowOctet, Bit, Place;
    var x, hi, lo := crc as bv32, HighOctet(crc), LowOctet(crc);
    forall i | 0 <= i < 8
      ensures Bits8(hi)[i] == Low16(x)[i] && Bits8(lo)[i] == Low16(x)[8 + i]
    {
      SplitBit(x, 7 - i);
    }
    assert Bits8(hi) == Low16(x)[..8] && Bits8(lo) == Low16(x)[8..];
  }

  lemma SplitWidths(crc: bv16)
    ensures HighOctet(crc) as bv32 == ((crc as bv32) >> 8) & 0xFF
    ensures LowOctet(crc) as bv32 == (crc as bv32) & 0xFF
  {
  }

  lemma SplitBit(x: bv32, i: nat)
    requires i < 8
    ensures Bit((x >> 8) & 0xFF, i) == Bit(x, i + 8) && Bit(x & 0xFF, i) == Bit(x, i)
  {
    assert Place(i + 8) == Place(i) + 8 && Place(i) < 8;
    SplitBits(x, Place(i));
  }

  lemma SplitBits(x: bv32, i: bv32)
    requires i < 8
    ensures (((x >> 8) & 0xFF) >> i) & 1 == (x >> (i + 8)) & 1
    ensures ((x & 0xFF) >> i) & 1 == (x >> i) & 1
  {
  }

  lemma TrailerBits(data: seq<byte>)
    ensures Bits8(Trailer(data)[0]) + Bits8(Trailer(data)[1]) == Crc(data)
  {
    var r := Crc(data);
    hide Octet, Bits8, Crc;
    Bits8Octet(r[..8]);
    Bits8Octet(r[8..]);
    assert r[..8] + r[8..] == r;
  }

  /** What a receiver checks: the last two octets are the CRC of those before them. */
  predicate TrailerMatches(block: seq<byte>)
    requires |block| >= 2
  {
    var n := |block| - 2;
    Bits8(block[n]) + Bits8(block[n + 1]) == Crc(block[..n])
  }

  lemma TrailerMatchesIffResidueZero(block: seq<byte>)
    requires |block| >= 2
    ensures TrailerMatches(block) <==> Crc(block) == ZERO
  {
    var n := |block| - 2;
    ResidueZeroIffTrailer(block[..n], block[n], block[n + 1]);
    assert block == block[..n] + [block[n], block[n + 1]];
  }

  lemma SentBlockMatches(payload: seq<byte>)
    ensures TrailerMatches(payload + Trailer(payload))
  {
    TrailerBits(payload);
    assert (payload + Trailer(payload))[..|payload|] == payload;
  }

  /** Damage within sixteen consecutive bits, payload and trailer alike, never passes the check. */
  lemma BurstIsRejected(payload: seq<byte>, received: seq<byte>, start: nat)
    requires |received| == |payload| + 2 && received != payload + Trailer(payload) && start <= 8 * |received|
    requires forall i :: 0 <= i < 8 * |received| && !(start <= i < start + 16) ==>
               BitsOf(received)[i] == BitsOf(payload + Trailer(payload))[i]
    ensures !TrailerMatches(received)
  {
    SentBlockMatches(payload);
    TrailerMatchesIffResidueZero(payload + Trailer(payload));
    TrailerMatchesIffResidueZero(received);
    BurstChangesCrc(received, payload + Trailer(payload), start);
  }

  /** Nor does an odd number of flipped bits. */
  lemma OddErrorIsRejected(payload: seq<byte>, received: seq<byte>)
    requires |received| == |payload| + 2
    requires Ones(Xor(BitsOf(received), BitsOf(payload + Trailer(payload)))) % 2 == 1
    ensures !TrailerMatches(received)
  {
    SentBlockMatches(payload);
    TrailerMatchesIffResidueZero(payload + Trailer(payload));
    TrailerMatchesIffResidueZero(received);
    OddErrorChangesCrc(received, payload + Trailer(payload));
  }
}
