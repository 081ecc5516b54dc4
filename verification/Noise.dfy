/**
 A line that flips bits on the way to the receiver, and what the receiver makes of a block it has damaged.
 */
module Noise {
  import opened Bytes
  import opened Gf2
  import opened Crc16
  import opened CrcDistance
  import opened Packets
  import opened Receiver

  /** The receiver, and the bits the line will flip in the octets to come; beyond `noise` it flips none. */
  datatype Ear = Ear(r: State, noise: seq<byte>)

  function Flip(b: byte, noise: seq<byte>, i: nat): byte {
    if i < |noise| then b ^ noise[i] else b
  }

  /** What comes out of the line. */
  function Spoilt(octets: seq<byte>, noise: seq<byte>): (heard: seq<byte>)
    ensures |heard| == |octets|
    ensures forall i :: 0 <= i < |octets| ==> heard[i] == Flip(octets[i], noise, i)
  {
    if octets == [] then []
    else
      var n := |octets| - 1;
      Spoilt(octets[..n], noise) + [Flip(octets[n], noise, n)]
  }

  function Beyond(noise: seq<byte>, n: nat): seq<byte> {
    if n <= |noise| then noise[n..] else []
  }

  function Hear(e: Ear, octets: seq<byte>): Ear {
    Ear(Listen(e.r, Spoilt(octets, e.noise)), Beyond(e.noise, |octets|))
  }

  lemma SpoiltAppend(a: seq<byte>, b: seq<byte>, noise: seq<byte>)
    ensures Spoilt(a + b, noise) == Spoilt(a, noise) + Spoilt(b, Beyond(noise, |a|))
  {
    hide Spoilt;
    forall i | 0 <= i < |b|
      ensures Flip(b[i], noise, |a| + i) == Flip(b[i], Beyond(noise, |a|), i)
    {
    }
    hide Flip, Beyond;
    assert forall i :: 0 <= i < |b| ==> (a + b)[|a| + i] == b[i];
  }

  lemma HearAppend(e: Ear, a: seq<byte>, b: seq<byte>)
    ensures Hear(e, a + b) == Hear(Hear(e, a), b)
  {
    assert Beyond(e.noise, |a + b|) == Beyond(Beyond(e.noise, |a|), |b|);
    hide Listen, Spoilt, Beyond;
    SpoiltAppend(a, b, e.noise);
    ListenAppend(e.r, Spoilt(a, e.noise), Spoilt(b, Beyond(e.noise, |a|)));
  }

  /** None of the next `n` octets will be damaged. */
  predicate Clear(noise: seq<byte>, n: nat) {
    forall i :: 0 <= i < n && i < |noise| ==> noise[i] == 0
  }

  lemma NothingFlipped(b: byte)
    ensures b ^ 0 == b
  {
  }

  lemma OnlyZeroFlipsNothing(b: byte, mask: byte)
    ensures b ^ mask == b ==> mask == 0
  {
  }

  lemma ClearIff(octets: seq<byte>, noise: seq<byte>)
    ensures Clear(noise, |octets|) <==> Spoilt(octets, noise) == octets
  {
    hide Spoilt;
    forall i | 0 <= i < |octets|
      ensures Spoilt(octets, noise)[i] == octets[i] <==> (i < |noise| ==> noise[i] == 0)
    {
      if i < |noise| {
        NothingFlipped(octets[i]);
        OnlyZeroFlipsNothing(octets[i], noise[i]);
      }
    }
  }

  lemma ClearAdds(noise: seq<byte>, m: nat, n: nat)
    ensures Clear(noise, m + n) <==> Clear(noise, m) && Clear(Beyond(noise, m), n)
    ensures Beyond(noise, m + n) == Beyond(Beyond(noise, m), n)
  {
    if Clear(noise, m) && Clear(Beyond(noise, m), n) {
      forall i | 0 <= i < m + n && i < |noise|
        ensures noise[i] == 0
      {
        if i >= m {
          assert noise[i] == Beyond(noise, m)[i - m];
        }
      }
    }
  }

  lemma HearClear(e: Ear, octets: seq<byte>)
    requires Clear(e.noise, |octets|)
    ensures Hear(e, octets) == Ear(Listen(e.r, octets), Beyond(e.noise, |octets|))
  {
    ClearIff(octets, e.noise);
  }

  // ------------------------------------------------------------------ damage to a block

  predicate Within(d: Bits, start: nat) {
    forall i :: 0 <= i < |d| && d[i] ==> start <= i < start + 16
  }

  /** At most three bits, an odd number of them, or bits within sixteen consecutive ones. */
  predicate Small(d: Bits) {
    Ones(d) == 2 || Ones(d) % 2 == 1 || (Ones(d) > 0 && exists start :: 0 <= start <= |d| && Within(d, start))
  }

  lemma DifferenceSplit(a: seq<byte>, b: seq<byte>, n: nat)
    requires |a| == |b| && n <= |a|
    ensures Difference(a, b) == Difference(a[..n], b[..n]) + Difference(a[n..], b[n..])
  {
    assert a == a[..n] + a[n..] && b == b[..n] + b[n..];
    BitsOfAppend(a[..n], a[n..]);
    BitsOfAppend(b[..n], b[n..]);
    hide BitsOf;
    var d, x, y := Difference(a, b), Difference(a[..n], b[..n]), Difference(a[n..], b[n..]);
    assert forall i :: 0 <= i < |d| ==> d[i] == (x + y)[i];
  }

  lemma BitOfComplement(b: byte, k: bv32)
    requires k < 8
    ensures (((!b) as bv32) >> k) & 1 == 1 <==> ((b as bv32) >> k) & 1 != 1
  {
  }

  lemma BitsOfComplement(b: byte, i: nat)
    requires i < 8
    ensures Bits8(!b)[i] == !Bits8(b)[i]
  {
    assert Place(7 - i) < 8;
    BitOfComplement(b, Place(7 - i));
  }

  /** Number and complement damaged alike differ in an even number of bits. */
  lemma HeadDamageIsEven(x: byte, n: byte)
    ensures Ones(Difference([x, !x], [n, !n])) % 2 == 0
  {
    var d, m := Difference([x, !x], [n, !n]), Xor(Bits8(x), Bits8(n));
    TwoOctets(x, !x);
    TwoOctets(n, !n);
    forall i | 0 <= i < 8
      ensures d[i] == m[i] && d[8 + i] == m[i]
    {
      BitsOfComplement(x, i);
      BitsOfComplement(n, i);
    }
    hide Bits8, BitsOf, Ones;
    assert d == m + m;
    OnesAppend(m, m);
  }

  lemma TwoOctets(x: byte, y: byte)
    ensures BitsOf([x, y]) == Bits8(x) + Bits8(y)
  {
    assert [x, y][1..] == [y] && [y][1..] == [];
    assert Bits8(y) + [] == Bits8(y);
  }

  lemma WithinRest(a: Bits, b: Bits, start: nat)
    requires Within(a + b, start)
    ensures Within(b, if start < |a| then 0 else start - |a|)
  {
    forall i | 0 <= i < |b| && b[i]
      ensures (if start < |a| then 0 else start - |a|) <= i < (if start < |a| then 0 else start - |a|) + 16
    {
      assert (a + b)[|a| + i];
    }
  }

  lemma LargeRest(a: Bits, b: Bits) returns (start: nat)
    requires Small(a + b) && Ones(b) > 3
    ensures Ones(a) % 2 == 1 || Ones(b) % 2 == 1 || (start <= |b| && Within(b, start))
  {
    OnesAppend(a, b);
    start := 0;
    hide Ones, Within;
    if Ones(a + b) % 2 == 0 {
      var s :| 0 <= s <= |a + b| && Within(a + b, s);
      WithinRest(a, b, s);
      start := if s < |a| then 0 else s - |a|;
    }
  }

  /** Small damage that reaches payload or trailer is seen by the check, or has left a broken head. */
  lemma BodyDamage(payload: seq<byte>, heard: seq<byte>, a: Bits)
    requires |heard| == |payload| + 2 && |heard| <= 4095
    requires var b := Difference(heard, payload + Trailer(payload)); Small(a + b) && Ones(b) > 0
    ensures !TrailerMatches(heard) || Ones(a) % 2 == 1
  {
    hide *;
    var b := Difference(heard, payload + Trailer(payload));
    if Ones(b) <= 3 {
      SmallErrorIsRejected(payload, heard);
    } else {
      var start := LargeRest(a, b);
      if Ones(b) % 2 == 1 {
        OddBodyDamage(payload, heard);
      } else if Ones(a) % 2 == 0 {
        BurstBodyDamage(payload, heard, start);
      }
    }
  }

  lemma OddBodyDamage(payload: seq<byte>, heard: seq<byte>)
    requires |heard| == |payload| + 2 && Ones(Difference(heard, payload + Trailer(payload))) % 2 == 1
    ensures !TrailerMatches(heard)
  {
    hide TrailerMatches, Ones, BitsOf;
    OddErrorIsRejected(payload, heard);
  }

  lemma BurstBodyDamage(payload: seq<byte>, heard: seq<byte>, start: nat)
    requires |heard| == |payload| + 2 && start <= 8 * |heard|
    requires var d := Difference(heard, payload + Trailer(payload)); Within(d, start) && Ones(d) > 0
    ensures !TrailerMatches(heard)
  {
    var sent := payload + Trailer(payload);
    if heard == sent {
      XorZeroIffEqual(BitsOf(heard), BitsOf(sent));
      OnesZeros(8 * |heard|);
    }
    hide TrailerMatches, Ones, BitsOf, Trailer;
    BurstIsRejected(payload, heard, start);
  }

  // ------------------------------------------------------------------ damaged blocks

  /** A block the receiver may get next has this number. */
  predicate Expects(r: State, number: byte) {
    match r.stage
    case Ready => number == 0
    case Receiving(k) => number == k
    case Between => number == 0
    case Closed => false
  }

  lemma SameHasNoDifference(x: seq<byte>)
    ensures Ones(Difference(x, x)) == 0
  {
    XorZeroIffEqual(BitsOf(x), BitsOf(x));
    hide BitsOf, Ones;
    OnesZeros(8 * |x|);
  }

  lemma SmallIsSomething(a: Bits, b: Bits)
    requires Small(a + b)
    ensures Ones(a) > 0 || Ones(b) > 0
  {
    OnesAppend(a, b);
    hide Ones, Within;
  }

  lemma IntactParts(heard: seq<byte>)
    requires |heard| >= 5 && Intact(heard)
    ensures heard[2] == !heard[1] && TrailerMatches(heard[3..])
  {
    hide TrailerMatches;
  }

  /** A frame with its kind intact and small damage behind it does not pass for what it was. */
  lemma DamagedFrame(kind: byte, number: byte, payload: seq<byte>, heard: seq<byte>)
    requires |payload| <= 4000 && |heard| == |payload| + 5 && |Frame(kind, number, payload)| == |heard|
    requires Small(Difference(heard[1..], Frame(kind, number, payload)[1..]))
    ensures Intact(heard) ==> heard[1] != number
  {
    var got, sent := heard[1..], Frame(kind, number, payload)[1..];
    FrameParts(kind, number, payload, Trailer(payload));
    assert got[..2] == [heard[1], heard[2]] && sent[..2] == [number, !number];
    assert got[2..] == heard[3..] && sent[2..] == payload + Trailer(payload);
    hide *;
    DifferenceSplit(got, sent, 2);
    var a, b := Difference(got[..2], sent[..2]), Difference(got[2..], sent[2..]);
    SmallIsSomething(a, b);
    SameHasNoDifference([number, !number]);
    if Intact(heard) {
      IntactParts(heard);
      HeadDamageIsEven(heard[1], number);
      if Ones(b) > 0 {
        BodyDamage(payload, got[2..], a);
      }
    }
  }

  /** Whatever is expected, such a block is refused and nothing else changes. */
  lemma DamagedFrameIsRefused(r: State, kind: byte, number: byte, payload: seq<byte>, heard: seq<byte>)
    requires r.inbuf == [] && Expects(r, number)
    requires (kind == SOH && |payload| == PACKET_SIZE) || (kind == STX && |payload| == PACKET_1K_SIZE)
    requires |heard| == |payload| + 5 == |Frame(kind, number, payload)| && heard[0] == kind
    requires Small(Difference(heard[1..], Frame(kind, number, payload)[1..]))
    ensures Listen(r, heard) == Reply(r, [NAK])
  {
    hide Intact, Frame, Small, Difference, ParseHeader, Listen;
    DamagedFrame(kind, number, payload, heard);
    WholeBlock(r, heard);
    assert heard[1] == number ==> !Intact(heard);
  }

  /** A block that comes through whole, or with its kind intact and small damage behind it. */
  predicate Mild(block: seq<byte>, noise: seq<byte>)
    requires block != []
  {
    Clear(noise, |block|) || (Clear(noise, 1) && Small(Difference(Spoilt(block, noise)[1..], block[1..])))
  }

  lemma SpoiltBlockIsRefused(e: Ear, kind: byte, number: byte, payload: seq<byte>)
    requires e.r.inbuf == [] && Expects(e.r, number)
    requires (kind == SOH && |payload| == PACKET_SIZE) || (kind == STX && |payload| == PACKET_1K_SIZE)
    requires Mild(Frame(kind, number, payload), e.noise) && !Clear(e.noise, |Frame(kind, number, payload)|)
    ensures Hear(e, Frame(kind, number, payload)) ==
            Ear(Reply(e.r, [0x15]), Beyond(e.noise, |Frame(kind, number, payload)|))
  {
    var f := Frame(kind, number, payload);
    FrameParts(kind, number, payload, Trailer(payload));
    assert |f| == |payload| + 5 && f[0] == kind;
    FirstOctet(f, e.noise);
    hide Frame, Small, Difference, Spoilt, Listen, Beyond, Expects;
    DamagedFrameIsRefused(e.r, kind, number, payload, Spoilt(f, e.noise));
  }

  lemma FirstOctet(octets: seq<byte>, noise: seq<byte>)
    requires octets != [] && Clear(noise, 1)
    ensures Spoilt(octets, noise)[0] == octets[0]
  {
    hide Spoilt;
    NothingFlipped(octets[0]);
  }

  // ------------------------------------------------------------------ damage in terms of the bits flipped

  /** What is flipped in the next `n` octets. */
  function Mask(noise: seq<byte>, n: nat): (m: seq<byte>)
    ensures |m| == n
  {
    if n <= |noise| then noise[..n] else noise + Repeat(0, n - |noise|)
  }

  lemma FlippedBit(b: byte, m: byte, k: bv32)
    requires k < 8
    ensures (((b ^ m) as bv32) >> k) & 1 == 1 <==> (((b as bv32) >> k) & 1 == 1) != (((m as bv32) >> k) & 1 == 1)
  {
  }

  lemma FlippedAt(b: byte, m: byte, i: nat)
    requires i < 8
    ensures OctetBit(b ^ m, i) == (OctetBit(b, i) != OctetBit(m, i))
  {
    assert Place(i) < 8;
    FlippedBit(b, m, Place(i));
  }

  lemma FlippedBits(b: byte, m: byte)
    ensures Xor(Bits8(b ^ m), Bits8(b)) == Bits8(m)
  {
    hide OctetBit;
    forall i | 0 <= i < 8
      ensures Bits8(b ^ m)[i] == (Bits8(b)[i] != Bits8(m)[i])
    {
      FlippedAt(b, m, 7 - i);
    }
    hide Bits8;
  }

  predicate Flipped(heard: seq<byte>, sent: seq<byte>, mask: seq<byte>) {
    |heard| == |sent| == |mask| && forall i :: 0 <= i < |sent| ==> heard[i] == sent[i] ^ mask[i]
  }

  lemma {:induction false} DifferenceIsMask(heard: seq<byte>, sent: seq<byte>, mask: seq<byte>)
    requires Flipped(heard, sent, mask)
    ensures Difference(heard, sent) == BitsOf(mask)
    decreases |mask|
  {
    if mask == [] {
    } else {
      FlippedBits(sent[0], mask[0]);
      DifferenceIsMask(heard[1..], sent[1..], mask[1..]);
      XorJoins(Bits8(heard[0]), BitsOf(heard[1..]), Bits8(sent[0]), BitsOf(sent[1..]));
      hide Bits8;
    }
  }

  lemma XorJoins(a: Bits, b: Bits, c: Bits, d: Bits)
    requires |a| == |c| && |b| == |d|
    ensures Xor(a + b, c + d) == Xor(a, c) + Xor(b, d)
  {
  }

  lemma SpoiltIsFlipped(octets: seq<byte>, noise: seq<byte>)
    ensures Flipped(Spoilt(octets, noise), octets, Mask(noise, |octets|))
  {
    hide Spoilt;
    forall i | 0 <= i < |octets|
      ensures Spoilt(octets, noise)[i] == octets[i] ^ Mask(noise, |octets|)[i]
    {
      NothingFlipped(octets[i]);
    }
  }

  lemma NoOnesIsClear(noise: seq<byte>, n: nat)
    requires n > 0 && Mask(noise, n)[0] == 0 && Ones(BitsOf(Mask(noise, n)[1..])) == 0
    ensures Clear(noise, n)
  {
    var m := Mask(noise, n);
    NoBitsNoOctets(m[1..]);
    forall i | 0 <= i < n && i < |noise|
      ensures noise[i] == 0
    {
      assert noise[i] == m[i];
      assert i > 0 ==> m[i] == m[1..][i - 1];
    }
  }

  lemma AllZeros(d: Bits)
    requires forall k :: 0 <= k < |d| ==> !d[k]
    ensures d == Zeros(|d|)
  {
  }

  lemma NoBitsNoOctets(m: seq<byte>)
    requires Ones(BitsOf(m)) == 0
    ensures forall i :: 0 <= i < |m| ==> m[i] == 0
  {
    hide *;
    NoOnes(BitsOf(m));
    AllZeros(BitsOf(m));
    BitsOfZeros(|m|);
    BitsOfInjective(m, Repeat(0, |m|));
  }

  lemma FirstClear(noise: seq<byte>, n: nat)
    requires n > 0 && Mask(noise, n)[0] == 0
    ensures Clear(noise, 1)
  {
  }

  /**
   Which noise is gentle on a block: none on the kind octet, and behind it at most three flipped bits, an odd
   number of them, or flipped bits within sixteen consecutive ones only.
   */
  lemma GentleDamage(block: seq<byte>, noise: seq<byte>, start: nat)
    requires block != [] && Mask(noise, |block|)[0] == 0
    requires var d := BitsOf(Mask(noise, |block|)[1..]);
             || Ones(d) <= 3 || Ones(d) % 2 == 1
             || (start <= |d| && forall i :: 0 <= i < |d| && d[i] ==> start <= i < start + 16)
    ensures Mild(block, noise)
  {
    var m := Mask(noise, |block|);
    var d := BitsOf(m[1..]);
    hide *;
    if Ones(d) == 0 {
      NoOnesIsClear(noise, |block|);
      ClearIsMild(block, noise);
    } else {
      SmallIf(d, start);
      FirstClear(noise, |block|);
      SpoiltIsFlipped(block, noise);
      FlippedRest(Spoilt(block, noise), block, m);
      DifferenceIsMask(Spoilt(block, noise)[1..], block[1..], m[1..]);
      DamagedIsMild(block, noise);
    }
  }

  lemma SmallIf(d: Bits, start: nat)
    requires Ones(d) > 0
    requires || Ones(d) <= 3 || Ones(d) % 2 == 1
             || (start <= |d| && forall i :: 0 <= i < |d| && d[i] ==> start <= i < start + 16)
    ensures Small(d)
  {
    hide Ones;
    if Ones(d) != 2 && Ones(d) % 2 == 0 {
      assert Within(d, start);
    }
  }

  lemma FlippedRest(heard: seq<byte>, sent: seq<byte>, mask: seq<byte>)
    requires Flipped(heard, sent, mask) && mask != []
    ensures Flipped(heard[1..], sent[1..], mask[1..])
  {
  }

  lemma ClearIsMild(block: seq<byte>, noise: seq<byte>)
    requires block != [] && Clear(noise, |block|)
    ensures Mild(block, noise)
  {
  }

  lemma DamagedIsMild(block: seq<byte>, noise: seq<byte>)
    requires block != [] && Clear(noise, 1) && Small(Difference(Spoilt(block, noise)[1..], block[1..]))
    ensures Mild(block, noise)
  {
  }

  // ------------------------------------------------------------------ a damaged kind octet

  predicate Ending(r: State, before: State) {
    (r.stage.Between? || r.stage.Closed?) && r.file == before.file && before.out <= r.out
  }

  lemma {:induction false} EndingStays(r: State, before: State, octets: seq<byte>)
    requires Ending(r, before)
    ensures Ending(Listen(r, octets), before)
    decreases |octets|
  {
    if octets == [] {
    } else {
      EndingStays(r, before, octets[..|octets| - 1]);
      FeedKeepsEnding(Listen(r, octets[..|octets| - 1]), before, octets[|octets| - 1]);
      hide Feed, Ending;
    }
  }

  lemma FeedKeepsEnding(r: State, before: State, b: byte)
    requires Ending(r, before)
    ensures Ending(Feed(r, b), before)
  {
    hide ParseHeader, Intact;
  }

  lemma OctetIgnored(r: State)
    requires r.inbuf == []
    ensures Listen(r, [0]) == r
  {
    assert [0 as byte][..0] == [] && Listen(r, []) == r;
    hide Accept;
  }

  lemma EotTaken(r: State)
    requires r.inbuf == [] && r.stage.Receiving?
    ensures Ending(Listen(r, [EOT]), r.(out := r.out + [ACK, CRC16]))
  {
    WholeBlock(r, [EOT]);
  }

  /**
   A single flipped bit in a kind octet is another matter. The number of block 4, 260 and so on travels as
   EOT and is taken for the end of the file: the receiver acknowledges a block that it never takes.
   */
  lemma KindBitLosesBlock(r: State, k: nat, payload: seq<byte>)
    requires r.inbuf == [] && r.stage == Receiving(4) && k % 256 == 4
    requires |payload| == PACKET_SIZE || |payload| == PACKET_1K_SIZE
    ensures Ones(Bits8(Kind(payload))) == 1
    ensures var after := Hear(Ear(r, [Kind(payload)]), DataFrame(k, payload)).r;
            r.out + [ACK, CRC16] <= after.out && after.file == r.file && !after.stage.Receiving?
  {
    var kind, f := Kind(payload), DataFrame(k, payload);
    KindHasOneBit(payload);
    FourIsEot(k);
    FrameParts(kind, EOT, payload, Trailer(payload));
    hide Bits8, Ones, WireNumber, Listen, Trailer, Kind;
    SpoiltKind(f, kind);
    ListenAppend(r, [0], [EOT] + f[2..]);
    ListenAppend(r, [EOT], f[2..]);
    OctetIgnored(r);
    EotTaken(r);
    EndingStays(Listen(r, [EOT]), r.(out := r.out + [ACK, CRC16]), f[2..]);
    assert [0] + ([EOT] + f[2..]) == Spoilt(f, [kind]);
  }

  lemma FourIsEot(k: nat)
    requires k % 256 == 4
    ensures WireNumber(k) == EOT == 4
  {
    NumberOnWire(k);
    hide WireNumber;
    SameOctet(WireNumber(k), EOT);
  }

  lemma KindHasOneBit(payload: seq<byte>)
    ensures Ones(Bits8(Kind(payload))) == 1
  {
    assert Bits8(SOH) == Zeros(7) + [true] && Bits8(STX) == Zeros(6) + [true, false];
    OnesZeros(7);
    OnesZeros(6);
    OnesAppend(Zeros(7), [true]);
    OnesAppend(Zeros(6), [true, false]);
  }

  lemma FlippedAway(b: byte)
    ensures b ^ b == 0
  {
  }

  lemma SpoiltKind(f: seq<byte>, kind: byte)
    requires |f| >= 2 && f[0] == kind
    ensures Spoilt(f, [kind]) == [0] + ([f[1]] + f[2..])
  {
    hide Spoilt;
    var s := Spoilt(f, [kind]);
    FlippedAway(kind);
    assert s[0] == 0;
    assert forall i :: 1 <= i < |f| ==> s[i] == f[i];
    SpoiltFirst(s, f);
  }

  lemma SpoiltFirst(s: seq<byte>, f: seq<byte>)
    requires |s| == |f| >= 2 && s[0] == 0 && forall i :: 1 <= i < |f| ==> s[i] == f[i]
    ensures s == [0] + ([f[1]] + f[2..])
  {
    assert s[2..] == f[2..];
    assert s == [s[0]] + ([s[1]] + s[2..]);
  }
}
