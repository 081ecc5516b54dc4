/**
 Packets of the YMODEM batch protocol (sections 4.3 and 5 of the XMODEM/YMODEM Protocol
 Reference): what the frames of a transfer are, and the two routines of modem/ymodem.cpp
 that fill the packet buffer in place.
 */
module Packets {
  import opened Bytes
  import opened Crc16
  import opened Decimal

  const SOH: byte := 0x01
  const STX: byte := 0x02
  const EOT: byte := 0x04
  const ACK: byte := 0x06
  const NAK: byte := 0x15
  const CRC16: byte := 0x43 // 'C'
  const FILLER: byte := 0x1A

  const PACKET_HEADER := 3
  const PACKET_TRAILER := 2
  const PACKET_SIZE := 128
  const PACKET_1K_SIZE := 1024
  const FILE_NAME_LENGTH := 256
  const MAX_BLOCKS := 896 // USER_FLASH_SIZE / 1024
  const USER_FLASH_SIZE := 917_504

  // ------------------------------------------------------------------ frames

  function Head(kind: byte, number: byte): (h: seq<byte>)
    ensures |h| == PACKET_HEADER
  {
    [kind, number, !number]
  }

  function Frame(kind: byte, number: byte, payload: seq<byte>): (f: seq<byte>)
    ensures |f| == |payload| + 5
  {
    Head(kind, number) + payload + Trailer(payload)
  }

  /** File name, NUL, size in decimal, zero fill; what does not fit in 128 octets is cut off. */
  function HeaderPayload(name: seq<byte>, size: nat): (p: seq<byte>)
    ensures |p| == PACKET_SIZE
  {
    (name + [0] + Numeral(size) + Repeat(0, PACKET_SIZE))[..PACKET_SIZE]
  }

  /** How many octets of the remaining image the next packet carries. */
  function ChunkSize(remaining: nat): (n: nat)
    ensures n <= remaining && (remaining > 0 ==> n > 0)
  {
    if remaining >= PACKET_1K_SIZE then PACKET_1K_SIZE
    else if remaining >= PACKET_SIZE then PACKET_SIZE
    else remaining
  }

  function PayloadSize(remaining: nat): nat {
    if remaining >= PACKET_1K_SIZE then PACKET_1K_SIZE else PACKET_SIZE
  }

  function FirstPayload(rest: seq<byte>): (p: seq<byte>)
    ensures |p| == PayloadSize(|rest|)
  {
    var n := ChunkSize(|rest|);
    rest[..n] + Repeat(FILLER, PayloadSize(|rest|) - n)
  }

  /** The payloads of blocks 1, 2, ... */
  function Payloads(image: seq<byte>): seq<seq<byte>>
    decreases |image|
  {
    if image == [] then [] else [FirstPayload(image)] + Payloads(image[ChunkSize(|image|)..])
  }

  function Kind(payload: seq<byte>): byte {
    if |payload| == PACKET_1K_SIZE then STX else SOH
  }

  /** Block numbers travel modulo 256. */
  function WireNumber(block: nat): byte {
    (block % 256) as byte
  }

  function DataFrame(block: nat, payload: seq<byte>): seq<byte> {
    Frame(Kind(payload), WireNumber(block), payload)
  }

  lemma NumberOnWire(block: nat)
    ensures WireNumber(block) as int == block % 256
  {
    OctetOf(block % 256);
  }

  lemma Complement(b: byte)
    ensures (!b) as int == 255 - b as int
  {
  }

  /** How a data block begins and how long it is: its number modulo 256 and 255 less that. */
  lemma DataFrameOctets(block: nat, payload: seq<byte>)
    ensures var f := DataFrame(block, payload);
            && |f| == |payload| + 5 && f[0] == (if |payload| == 1024 then 0x02 else 0x01)
            && f[1] as int == block % 256 && f[2] as int == 255 - block % 256
            && f[3..|payload| + 3] == payload
  {
    NumberOnWire(block);
    Complement(WireNumber(block));
    hide WireNumber, Trailer;
  }

  function PacketCount(size: nat): nat {
    size / PACKET_1K_SIZE + (size % PACKET_1K_SIZE + (PACKET_SIZE - 1)) / PACKET_SIZE
  }

  function PadLength(size: nat): nat {
    (PACKET_SIZE - size % PACKET_SIZE) % PACKET_SIZE
  }

  /** Every payload has one of the two legal sizes. */
  lemma {:induction false} PayloadSizes(image: seq<byte>)
    ensures forall p :: p in Payloads(image) ==> |p| == PACKET_SIZE || |p| == PACKET_1K_SIZE
    decreases |image|
  {
    if image == [] {
    } else {
      PayloadSizes(image[ChunkSize(|image|)..]);
    }
  }

  lemma CountStep(size: nat)
    requires size > 0
    ensures PacketCount(size) == 1 + PacketCount(size - ChunkSize(size))
    ensures PadLength(size - ChunkSize(size)) ==
            if size >= PACKET_SIZE then PadLength(size) else 0
  {
    var rest := size - ChunkSize(size);
    if size >= PACKET_1K_SIZE {
      assert rest / 1024 == size / 1024 - 1 && rest % 1024 == size % 1024;
      assert rest % 128 == size % 128;
    } else if size >= PACKET_SIZE {
      assert size / 1024 == 0 && rest / 1024 == 0;
      assert (size + 127) / 128 == (rest + 127) / 128 + 1;
      assert rest % 128 == size % 128;
    } else {
      assert size / 1024 == 0 && (size + 127) / 128 == 1;
    }
  }

  lemma {:induction false} PayloadCount(image: seq<byte>)
    ensures |Payloads(image)| == PacketCount(|image|)
    decreases |image|
  {
    if image == [] {
      assert PacketCount(0) == 0;
    } else {
      PayloadCount(image[ChunkSize(|image|)..]);
      CountStep(|image|);
    }
  }

  lemma {:induction false} FlattenCons<T>(first: seq<T>, rest: seq<seq<T>>)
    ensures Flatten([first] + rest) == first + Flatten(rest)
  {
    FlattenAppend([first], rest);
    assert [first][..0] == [] && Flatten([first]) == Flatten([]) + first;
    assert Flatten<T>([]) == [];
  }

  lemma FirstPayloadCarries(image: seq<byte>)
    requires image != []
    ensures |image| >= PACKET_SIZE ==> FirstPayload(image) == image[..ChunkSize(|image|)]
    ensures |image| < PACKET_SIZE ==>
              FirstPayload(image) == image + Repeat(FILLER, PadLength(|image|)) && image[ChunkSize(|image|)..] == []
  {
    if |image| < PACKET_SIZE {
      assert PadLength(|image|) == PACKET_SIZE - |image|;
    }
  }

  /** Nothing is lost, repeated or reordered: the payloads are the image and fewer than 128 fillers. */
  lemma {:induction false} PayloadsCarryImage(image: seq<byte>)
    ensures Flatten(Payloads(image)) == image + Repeat(0x1A, PadLength(|image|))
    ensures PadLength(|image|) < PACKET_SIZE
    decreases |image|
  {
    if image == [] {
      assert PadLength(0) == 0;
    } else {
      var n := ChunkSize(|image|);
      var rest := image[n..];
      PayloadsCarryImage(rest);
      CountStep(|image|);
      FlattenCons(FirstPayload(image), Payloads(rest));
      var pad := Repeat(FILLER, PadLength(|image|));
      FirstPayloadCarries(image);
      assert image[..n] + (rest + pad) == image + pad;
    }
  }

  /** Below 889 whole kilobytes and seven short packets every size fits in 896 packets. */
  lemma CountBound(size: nat)
    ensures MAX_BLOCKS == 896 && USER_FLASH_SIZE == 0x080F_FFFF - 0x0802_0000 + 1
    ensures size <= 911_232 ==> PacketCount(size) <= MAX_BLOCKS
    ensures size % PACKET_1K_SIZE == 0 ==> (PacketCount(size) <= MAX_BLOCKS <==> size <= USER_FLASH_SIZE)
    ensures PacketCount(911_233) > MAX_BLOCKS
  {
  }

  lemma NumberAndComplement(number: byte)
    ensures number + !number == 0xFF
  {
  }

  // ------------------------------------------------------------------ the code

  /**
   Fills the buffer with block 0, all but the trailer. `fileName` is the name array and the
   octet behind it, which the copying loop looks at when no NUL stops it earlier.
   */
  method PrepareInitialPacket(data: array<byte>, fileName: array<byte>, length: nat)
    requires data.Length == PACKET_1K_SIZE + PACKET_HEADER + PACKET_TRAILER
    requires fileName.Length == FILE_NAME_LENGTH + 1 && data != fileName
    requires length < 1_000_000_000 // a tenth digit would leave the digit string without its NUL
    modifies data
    ensures data[..PACKET_SIZE + PACKET_HEADER] ==
            Head(SOH, 0) + HeaderPayload(CString(fileName[..FILE_NAME_LENGTH]), length)
  {
    data[0] := SOH;
    data[1] := 0x00;
    data[2] := 0xff;
    ghost var head, numeral := Head(SOH, 0), Numeral(length);
    NumeralFits(length);
    assert data[..PACKET_HEADER] == head;
    hide Numeral, HeaderPayload, Head, CString, ToInt32, ToUint32;
    var i := PutName(data, fileName);
    ghost var name := CString(fileName[..FILE_NAME_LENGTH]);
    data[i + PACKET_HEADER] := 0x00;
    var filePtr := new byte[10](k => 0);
    Int2Str(filePtr, ToInt32(length));
    i := i + PACKET_HEADER + 1;
    assert data[..i] == head + name + [0];
    var n := CopyDigits(data, i, filePtr, numeral);
    ZeroFill(data, i + n);
    FieldThenZeros(data[..], head + name + [0] + numeral);
    HeaderLayout(data[..], name, length);
    assert data[..][..PACKET_SIZE + PACKET_HEADER] == data[..PACKET_SIZE + PACKET_HEADER];
  }

  lemma FieldThenZeros(block: seq<byte>, field: seq<byte>)
    requires |field| <= |block| && PACKET_SIZE + PACKET_HEADER <= |block| && block[..|field|] == field
    requires forall k :: |field| <= k < PACKET_SIZE + PACKET_HEADER ==> block[k] == 0
    ensures forall k :: 0 <= k < PACKET_SIZE + PACKET_HEADER ==> block[k] == if k < |field| then field[k] else 0
  {
    assert forall k :: 0 <= k < |field| ==> block[k] == block[..|field|][k];
  }

  /** Copies the name behind the head, up to its NUL or to the end of the name array. */
  method PutName(data: array<byte>, fileName: array<byte>) returns (i: nat)
    requires data != fileName && data.Length >= FILE_NAME_LENGTH + PACKET_HEADER
    requires fileName.Length == FILE_NAME_LENGTH + 1
    modifies data
    ensures var name := CString(fileName[..FILE_NAME_LENGTH]);
            i == |name| && data[..i + PACKET_HEADER] == old(data[..PACKET_HEADER]) + name
  {
    i := 0;
    while fileName[i] != 0 && i < FILE_NAME_LENGTH
      invariant i <= FILE_NAME_LENGTH
      invariant forall k :: 0 <= k < i ==> fileName[k] != 0
      invariant data[..i + PACKET_HEADER] == old(data[..PACKET_HEADER]) + fileName[..i]
      decreases FILE_NAME_LENGTH - i
    {
      data[i + PACKET_HEADER] := fileName[i];
      i := i + 1;
    }
    CStringIs(fileName[..FILE_NAME_LENGTH], i);
    assert fileName[..FILE_NAME_LENGTH][..i] == fileName[..i];
  }

  /** Names that agree up to position 255 give the same block 0: what is longer is cut off anyway. */
  lemma SameHeader(a: seq<byte>, b: seq<byte>, size: nat)
    requires |a| >= FILE_NAME_LENGTH - 1 && |b| >= FILE_NAME_LENGTH - 1
    requires a[..FILE_NAME_LENGTH - 1] == b[..FILE_NAME_LENGTH - 1]
    ensures HeaderPayload(CString(a), size) == HeaderPayload(CString(b), size)
  {
    var n := |CString(b)|;
    assert forall k :: 0 <= k < FILE_NAME_LENGTH - 1 ==> a[k] == a[..FILE_NAME_LENGTH - 1][k] == b[k];
    if n < FILE_NAME_LENGTH - 1 {
      CStringIs(a, n);
      assert a[..n] == b[..n];
    } else {
      hide Numeral;
      LongHeader(CString(a), size);
      LongHeader(CString(b), size);
      assert CString(a)[..PACKET_SIZE] == CString(b)[..PACKET_SIZE];
    }
  }

  lemma LongHeader(name: seq<byte>, size: nat)
    requires |name| >= PACKET_SIZE
    ensures HeaderPayload(name, size) == name[..PACKET_SIZE]
  {
    hide Numeral;
  }

  /** Copies the digits up to their NUL. */
  method CopyDigits(data: array<byte>, at: nat, filePtr: array<byte>, ghost numeral: seq<byte>) returns (j: nat)
    requires data != filePtr && at + 10 <= data.Length && filePtr.Length == 10
    requires |numeral| <= 9 && filePtr[..] == numeral + Repeat(0, 10 - |numeral|)
    requires forall k :: 0 <= k < |numeral| ==> numeral[k] != 0
    modifies data
    ensures j == |numeral| && data[..at + j] == old(data[..at]) + numeral
  {
    forall k | 0 <= k < 10
      ensures filePtr[k] == if k < |numeral| then numeral[k] else 0
    {
      assert filePtr[k] == filePtr[..][k];
    }
    j := 0;
    while filePtr[j] != 0
      invariant 0 <= j <= |numeral|
      invariant data[..at + j] == old(data[..at]) + numeral[..j]
      decreases |numeral| - j
    {
      data[at + j] := filePtr[j];
      j := j + 1;
    }
    assert numeral[..j] == numeral;
  }

  /** Clears the rest of the 128-octet payload, if anything of it is left. */
  method ZeroFill(data: array<byte>, at: nat)
    requires at <= data.Length && PACKET_SIZE + PACKET_HEADER <= data.Length
    modifies data
    ensures data[..at] == old(data[..at])
    ensures forall k :: at <= k < PACKET_SIZE + PACKET_HEADER ==> data[k] == 0
  {
    var j := at;
    while j < PACKET_SIZE + PACKET_HEADER
      invariant at <= j && (at <= PACKET_SIZE + PACKET_HEADER ==> j <= PACKET_SIZE + PACKET_HEADER)
      invariant data[..at] == old(data[..at])
      invariant forall k :: at <= k < j && k < PACKET_SIZE + PACKET_HEADER ==> data[k] == 0
    {
      data[j] := 0;
      j := j + 1;
    }
  }

  lemma NumeralFits(length: nat)
    requires length < 1_000_000_000
    ensures ToUint32(ToInt32(length)) == length
    ensures |Numeral(length)| <= 9 && forall k :: 0 <= k < |Numeral(length)| ==> Numeral(length)[k] != 0
  {
    PowersOfTen();
    NumeralLength(length, 9);
    forall k | 0 <= k < |Numeral(length)|
      ensures Numeral(length)[k] != 0
    {
      assert IsDigit(Numeral(length)[k]);
    }
  }

  lemma HeaderLayout(block: seq<byte>, name: seq<byte>, size: nat)
    requires |block| >= PACKET_SIZE + PACKET_HEADER
    requires var field := Head(SOH, 0) + name + [0] + Numeral(size);
             forall k :: 0 <= k < PACKET_SIZE + PACKET_HEADER ==> block[k] == if k < |field| then field[k] else 0
    ensures block[..PACKET_SIZE + PACKET_HEADER] == Head(SOH, 0) + HeaderPayload(name, size)
  {
    var numeral := Numeral(size);
    hide Numeral, Head;
    var whole := name + [0] + numeral + Repeat(0, PACKET_SIZE);
    forall k | 0 <= k < PACKET_SIZE
      ensures block[PACKET_HEADER + k] == whole[k]
    {
    }
  }

  /** Fills the buffer with the next data block, all but the trailer. `source` starts at `at`. */
  method PreparePacket(source: array<byte>, at: nat, data: array<byte>, pktNo: byte, sizeBlk: nat)
    requires data.Length == PACKET_1K_SIZE + PACKET_HEADER + PACKET_TRAILER && data != source
    requires at + sizeBlk <= source.Length
    modifies data
    ensures var p := FirstPayload(source[at..at + sizeBlk]);
            data[..PACKET_HEADER + |p|] == Head(Kind(p), pktNo) + p
  {
    var packetSize := if sizeBlk >= PACKET_1K_SIZE then PACKET_1K_SIZE else PACKET_SIZE;
    var size := if sizeBlk < packetSize then sizeBlk else packetSize;
    var kind := SOH;
    if packetSize == PACKET_1K_SIZE {
      kind := STX;
    }
    ghost var rest := source[at..at + sizeBlk];
    PayloadIs(rest, packetSize, size);
    PutHead(data, kind, pktNo);
    hide *;
    CopyPayload(source, at, data, size, rest);
    if size <= packetSize {
      Pad(data, size + PACKET_HEADER, packetSize + PACKET_HEADER);
    }
    Associative(Head(kind, pktNo), rest[..size], Repeat(FILLER, packetSize - size));
  }

  method PutHead(data: array<byte>, kind: byte, pktNo: byte)
    requires data.Length >= PACKET_HEADER
    modifies data
    ensures data[..PACKET_HEADER] == Head(kind, pktNo)
  {
    data[0] := kind;
    data[1] := pktNo;
    data[2] := !pktNo;
  }

  /** Copies `size` octets behind the head. */
  method CopyPayload(source: array<byte>, at: nat, data: array<byte>, size: nat, ghost rest: seq<byte>)
    requires data != source && PACKET_HEADER + size <= data.Length && size <= |rest|
    requires at + |rest| <= source.Length && rest == source[at..at + |rest|]
    modifies data
    ensures data[..PACKET_HEADER + size] == old(data[..PACKET_HEADER]) + rest[..size]
  {
    var filePtr := at;
    var i := PACKET_HEADER;
    while i < size + PACKET_HEADER
      invariant PACKET_HEADER <= i <= size + PACKET_HEADER && filePtr == at + (i - PACKET_HEADER)
      invariant data[..i] == old(data[..PACKET_HEADER]) + rest[..i - PACKET_HEADER]
    {
      assert source[filePtr] == rest[i - PACKET_HEADER];
      assert rest[..i + 1 - PACKET_HEADER] == rest[..i - PACKET_HEADER] + [rest[i - PACKET_HEADER]];
      data[i] := source[filePtr];
      filePtr := filePtr + 1;
      i := i + 1;
    }
  }

  /** Fills data[from..to] with 0x1A. */
  method Pad(data: array<byte>, from: nat, to: nat)
    requires from <= to <= data.Length
    modifies data
    ensures data[..to] == old(data[..from]) + Repeat(FILLER, to - from)
    ensures data[to..] == old(data[to..])
  {
    var i := from;
    while i < to
      invariant from <= i <= to
      invariant data[..i] == old(data[..from]) + Repeat(FILLER, i - from)
      invariant data[to..] == old(data[to..])
    {
      data[i] := FILLER; /* end-of-file mark */
      i := i + 1;
    }
  }

  lemma PayloadIs(rest: seq<byte>, packetSize: nat, size: nat)
    requires packetSize == PayloadSize(|rest|) && size == if |rest| < packetSize then |rest| else packetSize
    ensures FirstPayload(rest) == rest[..size] + Repeat(FILLER, packetSize - size)
    ensures Kind(FirstPayload(rest)) == if packetSize == PACKET_1K_SIZE then STX else SOH
  {
  }
}
