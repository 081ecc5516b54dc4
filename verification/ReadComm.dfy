/**
 CosmosReadCommProc: what the reader thread does with each chunk that comes in from the
 watch. A chunk is either a tagged reply or a piece of the file being downloaded.
 */
module ReadComm {
  import opened Arithmetic
  import opened Bytes
  import opened Decimal

  const CHUNK_LIMIT := 1024 // the buffer of ComIO::ReadThread
  const COMMA: byte := 0x2C

  // ------------------------------------------------------------------ tags

  /** "CHECK", "FCHECK", "FSIZE", "FREAD". */
  const CHECK: seq<byte> := [0x43, 0x48, 0x45, 0x43, 0x4B]
  const FCHECK: seq<byte> := [0x46, 0x43, 0x48, 0x45, 0x43, 0x4B]
  const FSIZE: seq<byte> := [0x46, 0x53, 0x49, 0x5A, 0x45]
  const FREAD: seq<byte> := [0x46, 0x52, 0x45, 0x41, 0x44]
  const TAGS: seq<seq<byte>> := [CHECK, FCHECK, FSIZE, FREAD]

  predicate OccursAt(text: seq<byte>, pattern: seq<byte>, i: nat) {
    i + |pattern| <= |text| && text[i..i + |pattern|] == pattern
  }

  /** strstr finds it. */
  predicate Contains(text: seq<byte>, pattern: seq<byte>) {
    exists i :: 0 <= i <= |text| && OccursAt(text, pattern, i)
  }

  lemma Occurs(a: seq<byte>, pattern: seq<byte>, b: seq<byte>)
    ensures Contains(a + pattern + b, pattern)
  {
    var text := a + pattern + b;
    assert text[|a|..|a| + |pattern|] == pattern;
    assert OccursAt(text, pattern, |a|);
  }

  lemma Splits(text: seq<byte>, pattern: seq<byte>) returns (a: seq<byte>, b: seq<byte>)
    requires Contains(text, pattern)
    ensures text == a + pattern + b
  {
    var i :| 0 <= i <= |text| && OccursAt(text, pattern, i);
    a, b := text[..i], text[i + |pattern|..];
    assert text == text[..i] + text[i..i + |pattern|] + text[i + |pattern|..];
  }

  /** strstr finds a pattern just when the text is something, the pattern, and something. */
  lemma ContainsIff(text: seq<byte>, pattern: seq<byte>)
    ensures Contains(text, pattern) <==> exists a, b :: text == a + pattern + b
  {
    hide Contains;
    if Contains(text, pattern) {
      var a, b := Splits(text, pattern);
    }
    if a, b :| text == a + pattern + b {
      Occurs(a, pattern, b);
    }
  }

  /** The tags spelt out, and the comma. */
  lemma TagsAreSpelt()
    ensures COMMA as int == ',' as int
    ensures |TAGS| == 4 && TAGS == [CHECK, FCHECK, FSIZE, FREAD]
    ensures |CHECK| == 5 && forall i :: 0 <= i < 5 ==> CHECK[i] as int == "CHECK"[i] as int
    ensures |FCHECK| == 6 && forall i :: 0 <= i < 6 ==> FCHECK[i] as int == "FCHECK"[i] as int
    ensures |FSIZE| == 5 && forall i :: 0 <= i < 5 ==> FSIZE[i] as int == "FSIZE"[i] as int
    ensures |FREAD| == 5 && forall i :: 0 <= i < 5 ==> FREAD[i] as int == "FREAD"[i] as int
  {
  }

  /** Which tag the text carries: the first in the list that occurs anywhere in it; 4 for none. */
  function TagIndex(text: seq<byte>): (index: nat)
    ensures index <= |TAGS|
    ensures index < |TAGS| ==> Contains(text, TAGS[index])
    ensures forall k :: 0 <= k < index ==> !Contains(text, TAGS[k])
  {
    if Contains(text, CHECK) then 0
    else if Contains(text, FCHECK) then 1
    else if Contains(text, FSIZE) then 2
    else if Contains(text, FREAD) then 3
    else 4
  }

  lemma OnlyTagIndex(text: seq<byte>, index: nat)
    requires index <= |TAGS| && (index < |TAGS| ==> Contains(text, TAGS[index]))
    requires forall k :: 0 <= k < index ==> !Contains(text, TAGS[k])
    ensures index == TagIndex(text)
  {
    var other := TagIndex(text);
    hide TagIndex, Contains;
  }

  method GetTagIndex(text: seq<byte>) returns (index: nat)
    ensures index == TagIndex(text)
  {
    hide Contains;
    index := 0;
    while index < |TAGS|
      invariant index <= |TAGS|
      invariant forall k :: 0 <= k < index ==> !Contains(text, TAGS[k])
    {
      if Contains(text, TAGS[index]) {
        break;
      }
      index := index + 1;
    }
    OnlyTagIndex(text, index);
  }

  /** Every "FCHECK" contains a "CHECK", so a file-existence reply is taken for a connection reply. */
  lemma FcheckIsNeverSeen(text: seq<byte>)
    ensures TagIndex(text) != 1
    ensures Contains(text, FCHECK) ==> TagIndex(text) == 0
  {
    if Contains(text, FCHECK) {
      var i :| 0 <= i <= |text| && OccursAt(text, FCHECK, i);
      forall k | 0 <= k < 5
        ensures text[i + 1..i + 6][k] == CHECK[k]
      {
        assert text[i..i + 6][k + 1] == FCHECK[k + 1];
      }
      assert OccursAt(text, CHECK, i + 1);
    }
  }

  // ------------------------------------------------------------------ strtol

  predicate IsSpace(b: byte) {
    b == 32 || 9 <= b <= 13
  }

  function SkipSpace(s: seq<byte>): seq<byte> {
    if s != [] && IsSpace(s[0]) then SkipSpace(s[1..]) else s
  }

  const LONG_MAX := 0x7FFF_FFFF
  const MINUS: byte := 0x2D
  const PLUS: byte := 0x2B

  /** strtol(s, NULL, 10) with a 32-bit long: blanks, a sign, digits; clamped. */
  function Strtol(s: seq<byte>): (v: int)
    ensures -LONG_MAX - 1 <= v <= LONG_MAX
  {
    var t := SkipSpace(s);
    if t != [] && t[0] == MINUS then
      var n: int := Value(DigitRun(t[1..]));
      if n > LONG_MAX + 1 then -LONG_MAX - 1 else -n
    else
      var n := Value(DigitRun(if t != [] && t[0] == PLUS then t[1..] else t));
      if n > LONG_MAX then LONG_MAX else n
  }

  /** What an announced size becomes as a DWORD. */
  function Announced(s: seq<byte>): (n: nat)
    ensures n < TWO32
  {
    ToUint32(Strtol(s))
  }

  // ------------------------------------------------------------------ replies

  /** What the code makes of a chunk. */
  datatype Message =
    | Ignored               // CHECK and FCHECK replies
    | FileSize(size: nat)   // FSIZE,size
    | FileRead(size: nat)   // FREAD,size: the file follows, or there is none
    | Content               // no tag, or no comma

  /** The text after the first comma. */
  function AfterComma(text: seq<byte>): Option<seq<byte>> {
    if text == [] then None else if text[0] == COMMA then Some(text[1..]) else AfterComma(text[1..])
  }

  function Classify(chunk: seq<byte>): Message {
    var text := CString(chunk);
    match AfterComma(text)
    case None => Content
    case Some(rest) =>
      var index := TagIndex(text);
      if index == 4 then Content
      else if index == 3 then FileRead(Announced(rest))
      else if index == 2 then FileSize(Announced(rest))
      else Ignored
  }

  /** A chunk is dropped without a trace exactly when CHECK occurs anywhere before its first NUL, and a comma. */
  lemma IgnoredIff(chunk: seq<byte>)
    ensures Classify(chunk) == Ignored <==> (exists a, b :: CString(chunk) == a + CHECK + b) && COMMA in CString(chunk)
  {
    hide *;
    FcheckIsNeverSeen(CString(chunk));
    ContainsIff(CString(chunk), CHECK);
    CommaIn(CString(chunk));
    IgnoredByTag(chunk);
  }

  lemma IgnoredByTag(chunk: seq<byte>)
    requires TagIndex(CString(chunk)) != 1
    ensures Classify(chunk) == Ignored <==> Contains(CString(chunk), CHECK) && AfterComma(CString(chunk)).Some?
  {
    hide CString, Contains, Announced, AfterComma;
  }

  /** It is taken for content exactly when there is no comma, or none of the tags that can be seen. */
  lemma ContentIff(chunk: seq<byte>)
    ensures var text := CString(chunk);
            Classify(chunk) == Content <==>
            COMMA !in text || !exists a, tag, b :: text == a + tag + b && (tag == CHECK || tag == FSIZE || tag == FREAD)
  {
    var text := CString(chunk);
    hide *;
    FcheckIsNeverSeen(text);
    ContainsIff(text, CHECK);
    ContainsIff(text, FSIZE);
    ContainsIff(text, FREAD);
    CommaIn(text);
    ContentByTag(chunk);
  }

  lemma ContentByTag(chunk: seq<byte>)
    requires TagIndex(CString(chunk)) != 1
    ensures var text := CString(chunk);
            Classify(chunk) == Content <==>
            AfterComma(text) == None || (!Contains(text, CHECK) && !Contains(text, FSIZE) && !Contains(text, FREAD))
  {
    hide CString, Contains, Announced, AfterComma;
  }

  lemma {:induction false} CommaIn(text: seq<byte>)
    ensures AfterComma(text).Some? <==> COMMA in text
    decreases |text|
  {
    if text == [] {
    } else {
      CommaIn(text[1..]);
      assert text == [text[0]] + text[1..];
    }
  }

  // ------------------------------------------------------------------ the header the watch sends

  lemma AbsentLetter(text: seq<byte>, pattern: seq<byte>, k: nat)
    requires k < |pattern| && pattern[k] !in text
    ensures !Contains(text, pattern)
  {
    if Contains(text, pattern) {
      var i :| 0 <= i <= |text| && OccursAt(text, pattern, i);
      MatchingLetter(text, pattern, i, k);
    }
  }

  lemma MatchingLetter(text: seq<byte>, pattern: seq<byte>, i: nat, k: nat)
    requires OccursAt(text, pattern, i) && k < |pattern|
    ensures pattern[k] in text
  {
    assert text[i..i + |pattern|][k] == text[i + k];
  }

  lemma {:induction false} CommaAfter(before: seq<byte>, rest: seq<byte>)
    requires COMMA !in before
    ensures AfterComma(before + [COMMA] + rest) == Some(rest)
    decreases |before|
  {
    var text := before + [COMMA] + rest;
    if before == [] {
      assert text[1..] == rest;
    } else {
      CommaAfter(before[1..], rest);
      assert text[1..] == before[1..] + [COMMA] + rest;
    }
  }

  // ------------------------------------------------------------------ numbers as strtol reads them

  /** Tab, line feed, vertical tab, form feed, carriage return, blank. */
  predicate Blank(b: byte) {
    b == 9 || b == 10 || b == 11 || b == 12 || b == 13 || b == 32
  }

  predicate AllBlank(s: seq<byte>) {
    forall i :: 0 <= i < |s| ==> Blank(s[i])
  }

  predicate AllDigits(s: seq<byte>) {
    forall i :: 0 <= i < |s| ==> 48 <= s[i] <= 57
  }

  predicate IsSign(sign: seq<byte>) {
    sign == [] || sign == [0x2B] || sign == [0x2D]
  }

  /** Blanks, a sign, digits, and whatever is none of these: every text can be taken apart so. */
  predicate NumberParts(blanks: seq<byte>, sign: seq<byte>, digits: seq<byte>, after: seq<byte>) {
    && AllBlank(blanks) && IsSign(sign) && AllDigits(digits)
    && (after != [] ==> !(48 <= after[0] <= 57))
    && (after != [] && sign == [] && digits == [] ==> !Blank(after[0]) && after[0] != 0x2B && after[0] != 0x2D)
  }

  function Limited(v: int): int {
    if v > 2_147_483_647 then 2_147_483_647 else if v < -2_147_483_648 then -2_147_483_648 else v
  }

  function Signed(sign: seq<byte>, digits: seq<byte>): int
    requires AllDigits(digits)
  {
    if sign == [0x2D] then 0 - Value(digits) else Value(digits)
  }

  lemma {:induction false} SkipBlanks(blanks: seq<byte>, rest: seq<byte>)
    requires AllBlank(blanks) && (rest != [] ==> !IsSpace(rest[0]))
    ensures SkipSpace(blanks + rest) == rest
    decreases |blanks|
  {
    if blanks == [] {
      assert blanks + rest == rest;
    } else {
      SkipBlanks(blanks[1..], rest);
      assert (blanks + rest)[1..] == blanks[1..] + rest;
    }
  }

  lemma DigitsThen(digits: seq<byte>, after: seq<byte>)
    requires AllDigits(digits) && (after != [] ==> !(48 <= after[0] <= 57))
    ensures DigitRun(digits + after) == digits
  {
    DigitRunIs(digits + after, |digits|);
  }

  lemma NumberStarts(sign: seq<byte>, digits: seq<byte>, after: seq<byte>)
    requires NumberParts([], sign, digits, after)
    ensures var t := sign + digits + after;
            && (t != [] ==> !IsSpace(t[0])) && (t != [] && sign == [] ==> t[0] != MINUS && t[0] != PLUS)
            && (sign != [] ==> t != [] && t[0] == sign[0] && t[1..] == digits + after)
            && (sign == [] ==> t == digits + after)
  {
    var t := sign + digits + after;
    if sign != [] {
      assert t[1..] == digits + after;
    } else {
      assert t == digits + after;
    }
  }

  /** strtol skips blanks, takes a sign and reads digits up to the first octet that is none, within a 32-bit long. */
  lemma StrtolReads(blanks: seq<byte>, sign: seq<byte>, digits: seq<byte>, after: seq<byte>)
    requires NumberParts(blanks, sign, digits, after)
    ensures Strtol(blanks + (sign + digits + after)) == Limited(Signed(sign, digits))
  {
    NumberStarts(sign, digits, after);
    SkipBlanks(blanks, sign + digits + after);
    DigitsThen(digits, after);
    hide SkipSpace, DigitRun, Value, IsSpace, NumberParts;
  }

  lemma OneMoreBlank(b: byte, blanks: seq<byte>, sign: seq<byte>, digits: seq<byte>, after: seq<byte>)
    requires NumberParts(blanks, sign, digits, after) && Blank(b)
    ensures NumberParts([b] + blanks, sign, digits, after)
    ensures [b] + (blanks + (sign + digits + after)) == ([b] + blanks) + (sign + digits + after)
  {
  }

  lemma Pieces(s: seq<byte>, n: nat, d: nat)
    requires n + d <= |s|
    ensures s == [] + (s[..n] + s[n..n + d] + s[n + d..])
  {
  }

  lemma NoBlank(s: seq<byte>) returns (sign: seq<byte>, digits: seq<byte>, after: seq<byte>)
    requires s != [] ==> !Blank(s[0])
    ensures NumberParts([], sign, digits, after) && s == [] + (sign + digits + after)
  {
    var n := if s != [] && (s[0] == 0x2B || s[0] == 0x2D) then 1 else 0;
    var d := |DigitRun(s[n..])|;
    sign, digits, after := s[..n], s[n..n + d], s[n + d..];
    PartsOf(s, n, d);
    hide *;
    Pieces(s, n, d);
  }

  lemma PartsOf(s: seq<byte>, n: nat, d: nat)
    requires n == (if s != [] && (s[0] == 0x2B || s[0] == 0x2D) then 1 else 0) && d == |DigitRun(s[n..])|
    requires s != [] ==> !Blank(s[0])
    ensures n + d <= |s| && NumberParts([], s[..n], s[n..n + d], s[n + d..])
  {
    var rest := s[n..];
    DigitRunEnds(rest);
    hide DigitRun;
    assert forall i :: 0 <= i < d ==> s[n..n + d][i] == rest[i];
    assert n + d < |s| ==> s[n + d..][0] == rest[d];
  }

  lemma DigitRunEnds(rest: seq<byte>)
    ensures var d := |DigitRun(rest)|;
            && d <= |rest| && (forall i :: 0 <= i < d ==> 48 <= rest[i] <= 57)
            && (d < |rest| ==> !(48 <= rest[d] <= 57))
  {
    hide DigitRun;
  }

  lemma {:induction false} TakeApart(s: seq<byte>)
    returns (blanks: seq<byte>, sign: seq<byte>, digits: seq<byte>, after: seq<byte>)
    ensures NumberParts(blanks, sign, digits, after) && s == blanks + (sign + digits + after)
    decreases |s|
  {
    hide *;
    if s != [] && Blank(s[0]) {
      blanks, sign, digits, after := TakeApart(s[1..]);
      OneMoreBlank(s[0], blanks, sign, digits, after);
      assert s == [s[0]] + s[1..];
      blanks := [s[0]] + blanks;
    } else {
      blanks := [];
      sign, digits, after := NoBlank(s);
    }
  }

  // ------------------------------------------------------------------ the replies the watch sends

  /** No NUL and none of the letters that would make another tag of the text. */
  predicate Quiet(s: seq<byte>) {
    0 !in s && 0x43 !in s && 0x53 !in s
  }

  lemma NumberIsQuiet(blanks: seq<byte>, sign: seq<byte>, digits: seq<byte>, after: seq<byte>)
    requires NumberParts(blanks, sign, digits, after)
    ensures var number := blanks + (sign + digits + after);
            && (0 !in after ==> 0 !in number) && (0x43 !in after ==> 0x43 !in [COMMA] + number)
            && (Quiet(after) ==> Quiet([COMMA] + number))
  {
  }

  lemma TagOfHeader(before: seq<byte>, rest: seq<byte>)
    requires Quiet(before) && Quiet(rest)
    ensures TagIndex(before + FREAD + rest) == 3
  {
    var text := before + FREAD + rest;
    Occurs(before, FREAD, rest);
    hide Contains;
    AbsentLetter(text, CHECK, 0);
    AbsentLetter(text, FCHECK, 1);
    AbsentLetter(text, FSIZE, 1);
  }

  lemma TagOfSize(before: seq<byte>, rest: seq<byte>)
    requires 0x43 !in before && 0x43 !in rest
    ensures TagIndex(before + FSIZE + rest) == 2
  {
    var text := before + FSIZE + rest;
    Occurs(before, FSIZE, rest);
    hide Contains;
    AbsentLetter(text, CHECK, 0);
    AbsentLetter(text, FCHECK, 1);
  }

  lemma TaggedParts(before: seq<byte>, tag: seq<byte>, number: seq<byte>)
    requires 0 !in before && 0 !in number && COMMA !in before && (tag == FREAD || tag == FSIZE)
    ensures var text := before + tag + ([COMMA] + number);
            CString(text) == text && AfterComma(text) == Some(number)
  {
    var text := before + tag + ([COMMA] + number);
    CStringIs(text, |text|);
    assert text[..|text|] == text;
    CommaAfter(before + tag, number);
    assert text == (before + tag) + [COMMA] + number;
    hide CString, AfterComma;
  }

  lemma ClassifyTagged(text: seq<byte>, number: seq<byte>)
    requires CString(text) == text && AfterComma(text) == Some(number)
    ensures TagIndex(text) == 3 ==> Classify(text) == FileRead(Announced(number))
    ensures TagIndex(text) == 2 ==> Classify(text) == FileSize(Announced(number))
  {
    hide CString, AfterComma, TagIndex, Announced;
  }

  /** A long as a DWORD. */
  function Dword(v: int): (n: nat)
    requires -2_147_483_648 <= v <= 2_147_483_647
  {
    if v < 0 then v + 0x1_0000_0000 else v
  }

  lemma AnnouncedIs(blanks: seq<byte>, sign: seq<byte>, digits: seq<byte>, after: seq<byte>)
    requires NumberParts(blanks, sign, digits, after)
    ensures Announced(blanks + (sign + digits + after)) == Dword(Limited(Signed(sign, digits)))
  {
    hide Strtol, Signed, NumberParts;
    StrtolReads(blanks, sign, digits, after);
  }

  /**
   An FREAD reply, whatever quiet text comes before the tag and behind the number: the size is what strtol
   reads behind the comma, a negative one taken modulo 2^32.
   */
  lemma HeaderIsRead(before: seq<byte>, blanks: seq<byte>, sign: seq<byte>, digits: seq<byte>, after: seq<byte>)
    requires Quiet(before) && COMMA !in before && NumberParts(blanks, sign, digits, after) && Quiet(after)
    ensures Classify(before + FREAD + ([COMMA] + (blanks + (sign + digits + after)))) ==
            FileRead(Dword(Limited(Signed(sign, digits))))
  {
    var number := blanks + (sign + digits + after);
    assert 0 !in before && 0 !in after by { hide NumberParts; }
    hide *;
    NumberIsQuiet(blanks, sign, digits, after);
    AnnouncedIs(blanks, sign, digits, after);
    TagOfHeader(before, [COMMA] + number);
    TaggedParts(before, FREAD, number);
    ClassifyTagged(before + FREAD + ([COMMA] + number), number);
  }

  /** An FSIZE reply likewise, even with FREAD in it. */
  lemma SizeIsRead(before: seq<byte>, blanks: seq<byte>, sign: seq<byte>, digits: seq<byte>, after: seq<byte>)
    requires 0 !in before && 0x43 !in before && COMMA !in before
    requires NumberParts(blanks, sign, digits, after) && 0 !in after && 0x43 !in after
    ensures Classify(before + FSIZE + ([COMMA] + (blanks + (sign + digits + after)))) ==
            FileSize(Dword(Limited(Signed(sign, digits))))
  {
    var number := blanks + (sign + digits + after);
    assert 0 !in before && 0 !in after by { hide NumberParts; }
    hide *;
    NumberIsQuiet(blanks, sign, digits, after);
    AnnouncedIs(blanks, sign, digits, after);
    TagOfSize(before, [COMMA] + number);
    TaggedParts(before, FSIZE, number);
    ClassifyTagged(before + FSIZE + ([COMMA] + number), number);
  }

  /** What comes behind a NUL is not looked at. */
  lemma NulEndsText(text: seq<byte>, behind: seq<byte>)
    requires 0 !in text
    ensures Classify(text + [0] + behind) == Classify(text)
  {
    var chunk := text + [0] + behind;
    CStringIs(chunk, |text|);
    CStringIs(text, |text|);
    assert chunk[..|text|] == text == text[..|text|];
    hide CString, AfterComma, TagIndex, Announced;
  }

  /** Printing a size into a header and reading it back gives the size, or the largest long there is. */
  lemma PrintedSizeIsRead(size: nat)
    ensures Classify(FREAD + [COMMA] + Numeral(size) + [13]) == FileRead(if size <= 2_147_483_647 then size else 2_147_483_647)
  {
    NumeralParts(size);
    hide *;
    HeaderIsRead([], [], [], Numeral(size), [13]);
    assert FREAD + [COMMA] + Numeral(size) + [13] == [] + FREAD + ([COMMA] + ([] + ([] + Numeral(size) + [13])));
  }

  /** A negative size is taken for one just below 2^32. */
  lemma NegativeSizeIsHuge(size: nat)
    requires 0 < size <= LONG_MAX
    ensures Classify(FREAD + [COMMA] + ([MINUS] + Numeral(size) + [13])) == FileRead(TWO32 - size)
  {
    NumeralParts(size);
    hide *;
    HeaderIsRead([], [], [MINUS], Numeral(size), [13]);
    assert FREAD + [COMMA] + ([MINUS] + Numeral(size) + [13]) ==
           [] + FREAD + ([COMMA] + ([] + ([MINUS] + Numeral(size) + [13])));
  }

  lemma NumeralParts(size: nat)
    ensures NumberParts([], [], Numeral(size), [13]) && Quiet([13]) && Quiet([]) && COMMA !in []
    ensures Dword(Limited(Signed([], Numeral(size)))) == if size <= 2_147_483_647 then size else 2_147_483_647
    ensures NumberParts([], [MINUS], Numeral(size), [13])
    ensures 0 < size <= LONG_MAX ==> Dword(Limited(Signed([MINUS], Numeral(size)))) == TWO32 - size
  {
    NumeralValue(size);
    hide Numeral, Value;
  }

  // ------------------------------------------------------------------ the receiver's state

  datatype Handle = Null | Invalid | Open(name: nat)

  /** The temporary files, by number. */
  type Folder = map<nat, seq<byte>>

  datatype Rx = Rx(flag: nat, dwName: nat, last: Option<nat>, handle: Handle, fileSize: nat, total: nat, rate: nat,
                   disk: Folder)

  function Contents(disk: Folder, name: nat): seq<byte> {
    if name in disk then disk[name] else []
  }

  function AfterInit(rx: Rx, name: nat, created: bool): Rx {
    rx.(last := Some(name), handle := if created then Open(name) else Invalid,
        disk := if created then rx.disk[name := []] else rx.disk)
  }

  function AfterDelete(rx: Rx): Rx {
    rx.(handle := Null, disk := if rx.last.Some? then rx.disk - {rx.last.value} else rx.disk)
  }

  /** A write of the chunk of which `w` octets were taken. */
  function AfterAppend(rx: Rx, chunk: seq<byte>, w: nat): Rx
    requires rx.handle.Open? && w <= |chunk|
  {
    rx.(disk := rx.disk[rx.handle.name := Contents(rx.disk, rx.handle.name) + chunk[..w]],
        total := (rx.total + w) % TWO32)
  }

  /** What proc() has still to do after storing `flag`, or before storing it. */
  datatype Rest = Nothing | OpenFile | CloseFile

  datatype Half = Half(rx: Rx, rest: Rest)

  /** The bookkeeping after a successful write; None is a division by zero. */
  function Counted(rx: Rx): Option<Half> {
    if rx.fileSize == 0 then None
    else
      var now := rx.(rate := (100 * rx.total % TWO32) / rx.fileSize);
      Some(Half(now, if rx.total >= rx.fileSize then CloseFile else Nothing))
  }

  /** The rate computed is the true percentage exactly as long as a hundred times the count fits 32 bits. */
  lemma RateIsTrueIff(rx: Rx)
    requires 0 < rx.fileSize < TWO32
    ensures Counted(rx).Some?
    ensures var rate := Counted(rx).value.rx.rate;
            rate * rx.fileSize <= 100 * rx.total < (rate + 1) * rx.fileSize <==> 100 * rx.total < 0x1_0000_0000
  {
    RateArithmetic(100 * rx.total, rx.fileSize);
  }

  lemma RateArithmetic(x: nat, size: nat)
    requires 0 < size < TWO32
    ensures var rate := (x % TWO32) / size; rate * size <= x < (rate + 1) * size <==> x < TWO32
  {
    var low := x % TWO32;
    var rate := low / size;
    QuotientBounds(low, size);
    ProductNext(rate, size);
    if x >= TWO32 {
      WrapsFar(x, size);
      assert (rate + 1) * size <= x;
    } else {
      assert low == x;
    }
  }

  lemma WrapsFar(x: nat, size: nat)
    requires size < TWO32 <= x
    ensures x % TWO32 + size <= x
  {
  }

  lemma ProductNext(q: nat, d: nat)
    ensures (q + 1) * d == q * d + d
  {
  }

  function HeaderStarts(rx: Rx, size: nat): Half {
    var now := rx.(total := 0, fileSize := size);
    if size == 0 then Half(now.(flag := 1), Nothing) else Half(now.(flag := 2), OpenFile)
  }

  function ContentStarts(rx: Rx, chunk: seq<byte>, written: Option<nat>): Option<Half>
    requires written.Some? ==> written.value <= |chunk|
  {
    if rx.flag == 2 && rx.handle.Open? && written.Some? then Counted(AfterAppend(rx, chunk, written.value))
    else Some(Half(rx, Nothing))
  }

  /** The first half of proc(), as a function: up to opening or closing the file. */
  function Starts(rx: Rx, chunk: seq<byte>, written: Option<nat>): Option<Half>
    requires written.Some? ==> written.value <= |chunk|
  {
    match Classify(chunk)
    case Ignored => Some(Half(rx, Nothing))
    case FileSize(size) => Some(Half(rx.(fileSize := size), Nothing))
    case FileRead(size) => Some(HeaderStarts(rx, size))
    case Content => ContentStarts(rx, chunk, written)
  }

  /** The second half: the file is opened, or closed and flag 3 set. */
  function Ends(rx: Rx, rest: Rest, created: bool): Rx {
    match rest
    case Nothing => rx
    case OpenFile => AfterInit(rx, rx.dwName, created)
    case CloseFile => rx.(handle := Null, flag := 3)
  }

  // ------------------------------------------------------------------ a whole file

  /** One chunk dealt with start to end, its octets written whole and the file created. */
  function Through(rx: Rx, chunk: seq<byte>): Option<Rx> {
    match Starts(rx, chunk, Some(|chunk|))
    case None => None
    case Some(half) => Some(Ends(half.rx, half.rest, true))
  }

  function ThroughAll(rx: Rx, chunks: seq<seq<byte>>): Option<Rx> {
    if chunks == [] then Some(rx)
    else
      match ThroughAll(rx, chunks[..|chunks| - 1])
      case None => None
      case Some(before) => Through(before, chunks[|chunks| - 1])
  }

  /** Pieces whose octets reach the size with the last one. */
  predicate FileInPieces(pieces: seq<seq<byte>>, size: nat) {
    && pieces != [] && |Flatten(pieces[..|pieces| - 1])| < size <= |Flatten(pieces)| < 0x1_0000_0000
    && forall k :: 0 <= k < |pieces| ==> Classify(pieces[k]) == Content
  }

  function RateOf(octets: nat, size: nat): nat
    requires size > 0
  {
    (100 * octets % 0x1_0000_0000) / size
  }

  /** While the file is open. */
  function Filled(rx: Rx, size: nat, file: seq<byte>): Rx
    requires size > 0
  {
    rx.(flag := 2, last := Some(rx.dwName), handle := Open(rx.dwName), fileSize := size, total := |file|,
        rate := RateOf(|file|, size), disk := rx.disk[rx.dwName := file])
  }

  lemma HeaderOpens(rx: Rx, header: seq<byte>, size: nat)
    requires Classify(header) == FileRead(size) && size > 0
    ensures Through(rx, header) == Some(Filled(rx, size, []).(rate := rx.rate))
  {
    hide Classify;
  }

  lemma AppendFills(rx: Rx, now: Rx, size: nat, file: seq<byte>, piece: seq<byte>)
    requires size > 0 && now == Filled(rx, size, file).(rate := now.rate) && |file + piece| < 0x1_0000_0000
    ensures now.flag == 2 && now.handle.Open?
    ensures AfterAppend(now, piece, |piece|) == Filled(rx, size, file + piece).(rate := now.rate)
  {
    hide Contents;
    CountFits(|file| + |piece|);
    SameFile(rx.disk, rx.dwName, file, piece);
    WholePiece(piece);
  }

  lemma CountFits(n: nat)
    ensures n < 0x1_0000_0000 ==> n % TWO32 == n
  {
  }

  lemma WholePiece(piece: seq<byte>)
    ensures piece[..|piece|] == piece
  {
  }

  lemma PieceFills(rx: Rx, now: Rx, size: nat, file: seq<byte>, piece: seq<byte>)
    requires size > 0 && now == Filled(rx, size, file).(rate := now.rate) && Classify(piece) == Content
    requires |file + piece| < 0x1_0000_0000
    ensures Through(now, piece) ==
            if |file + piece| < size then Some(Filled(rx, size, file + piece))
            else Some(Filled(rx, size, file + piece).(handle := Null, flag := 3))
  {
    AppendFills(rx, now, size, file, piece);
    hide Classify, AfterAppend;
  }

  lemma SameFile(disk: Folder, name: nat, file: seq<byte>, piece: seq<byte>)
    ensures Contents(disk[name := file], name) + piece == file + piece
    ensures disk[name := file][name := file + piece] == disk[name := file + piece]
  {
  }

  lemma ThroughSnoc(rx: Rx, chunks: seq<seq<byte>>, last: seq<byte>)
    requires ThroughAll(rx, chunks).Some?
    ensures ThroughAll(rx, chunks + [last]) == Through(ThroughAll(rx, chunks).value, last)
  {
    hide Through;
    assert (chunks + [last])[..|chunks|] == chunks;
  }

  lemma {:induction false} PiecesFill(rx: Rx, header: seq<byte>, size: nat, pieces: seq<seq<byte>>, k: nat)
    requires Classify(header) == FileRead(size) && 0 < size && FileInPieces(pieces, size) && k < |pieces|
    ensures var now := ThroughAll(rx, [header] + pieces[..k]);
            now.Some? && now.value == Filled(rx, size, Flatten(pieces[..k])).(rate := now.value.rate)
    decreases k
  {
    hide *;
    if k == 0 {
      HeaderOpens(rx, header, size);
      NothingThrough(rx, header, pieces);
    } else {
      PieceNext(pieces, size, k - 1);
      PiecesFill(rx, header, size, pieces, k - 1);
      var now := ThroughAll(rx, [header] + pieces[..k - 1]).value;
      PieceFills(rx, now, size, Flatten(pieces[..k - 1]), pieces[k - 1]);
      ThroughSnoc(rx, [header] + pieces[..k - 1], pieces[k - 1]);
      Associative([header], pieces[..k - 1], [pieces[k - 1]]);
      assert k - 1 + 1 == k;
      FilledRate(rx, size, Flatten(pieces[..k]));
    }
  }

  lemma FilledRate(rx: Rx, size: nat, file: seq<byte>)
    requires size > 0
    ensures var f := Filled(rx, size, file); f == f.(rate := f.rate)
  {
  }

  lemma NothingThrough(rx: Rx, header: seq<byte>, pieces: seq<seq<byte>>)
    ensures ThroughAll(rx, [header] + pieces[..0]) == Through(rx, header) && Flatten(pieces[..0]) == []
  {
    hide Through;
    assert [header] + pieces[..0] == [] + [header];
    ThroughSnoc(rx, [], header);
  }

  lemma PieceNext(pieces: seq<seq<byte>>, size: nat, k: nat)
    requires FileInPieces(pieces, size) && k < |pieces|
    ensures pieces[..k + 1] == pieces[..k] + [pieces[k]] && Classify(pieces[k]) == Content
    ensures Flatten(pieces[..k + 1]) == Flatten(pieces[..k]) + pieces[k]
    ensures |Flatten(pieces[..k + 1])| < 0x1_0000_0000
    ensures k + 1 < |pieces| ==> |Flatten(pieces[..k + 1])| < size
    ensures k + 1 == |pieces| ==> |Flatten(pieces[..k + 1])| >= size
  {
    FileFacts(pieces, size, k);
    hide *;
    FlattenSnoc(pieces[..k], pieces[k]);
    PrefixIsShorter(pieces, k + 1);
    assert pieces[..k + 1] == pieces[..k] + [pieces[k]];
    var init := pieces[..|pieces| - 1];
    if k + 1 < |pieces| {
      PrefixIsShorter(init, k + 1);
      assert init[..k + 1] == pieces[..k + 1];
    } else {
      assert pieces[..k + 1] == pieces;
    }
  }

  lemma FileFacts(pieces: seq<seq<byte>>, size: nat, k: nat)
    requires FileInPieces(pieces, size) && k < |pieces|
    ensures Classify(pieces[k]) == Content
    ensures |Flatten(pieces[..|pieces| - 1])| < size <= |Flatten(pieces)| < 0x1_0000_0000
  {
    hide Classify, Flatten;
  }

  lemma PrefixIsShorter(pieces: seq<seq<byte>>, k: nat)
    requires k <= |pieces|
    ensures |Flatten(pieces[..k])| <= |Flatten(pieces)|
  {
    hide *;
    assert pieces[..k] + pieces[k..] == pieces;
    FlattenAppend(pieces[..k], pieces[k..]);
  }

  /**
   A header and the pieces of a file, whatever state they find: the numbered file holds just these octets, an
   earlier one of that number is gone, no other file has changed, and the file is closed with flag 3.
   */
  lemma FileComesThrough(rx: Rx, header: seq<byte>, size: nat, pieces: seq<seq<byte>>)
    requires Classify(header) == FileRead(size) && 0 < size && FileInPieces(pieces, size)
    ensures ThroughAll(rx, [header] + pieces) ==
            Some(rx.(flag := 3, last := Some(rx.dwName), handle := Null, fileSize := size, total := |Flatten(pieces)|,
                     rate := RateOf(|Flatten(pieces)|, size), disk := rx.disk[rx.dwName := Flatten(pieces)]))
  {
    assert pieces != [] by { hide Classify, Flatten; }
    var k := |pieces| - 1;
    assert pieces[..k + 1] == pieces;
    PieceNext(pieces, size, k);
    hide Classify, ThroughAll, Through, FileInPieces, Flatten;
    PiecesFill(rx, header, size, pieces, k);
    var now := ThroughAll(rx, [header] + pieces[..k]).value;
    PieceFills(rx, now, size, Flatten(pieces[..k]), pieces[k]);
    ThroughSnoc(rx, [header] + pieces[..k], pieces[k]);
    Associative([header], pieces[..k], [pieces[k]]);
  }

  // ------------------------------------------------------------------ the code

  class ReadProc {
    var flag: nat // 0: before request, 1: before writing, 2: writing, 3: finished writing
    var dwName: nat
    var last: Option<nat>
    var handle: Handle
    var fileSize: nat
    var total: nat
    var rate: nat
    var disk: Folder

    function State(): Rx
      reads this
    {
      Rx(flag, dwName, last, handle, fileSize, total, rate, disk)
    }

    constructor (disk: Folder)
      ensures State() == Rx(0, 0, None, Null, 0, 0, 0, disk)
    {
      this.flag, this.dwName, this.last, this.handle := 0, 0, None, Null;
      this.fileSize, this.total, this.rate, this.disk := 0, 0, 0, disk;
    }

    method InitFile(name: nat, created: bool)
      modifies this
      ensures State() == AfterInit(old(State()), name, created)
    {
      if handle != Null {
        handle := Null;
      }
      last := Some(name);
      if created {
        disk := disk[name := []];
        handle := Open(name);
      } else {
        handle := Invalid;
      }
    }

    method DeinitFile()
      modifies this
      ensures State() == old(State()).(handle := Null)
    {
      if handle != Null {
        handle := Null;
      }
    }

    method DeleteLastFile()
      modifies this
      ensures State() == AfterDelete(old(State()))
    {
      DeinitFile();
      if last.Some? {
        disk := disk - {last.value};
      }
    }

    /** WriteFile: fails on a handle that is not open; may take less than it is given. */
    method WriteFile(chunk: seq<byte>, written: Option<nat>) returns (ok: bool, w: nat)
      requires written.Some? ==> written.value <= |chunk|
      modifies this
      ensures ok <==> handle.Open? && written.Some?
      ensures handle == old(handle) && flag == old(flag) && total == old(total)
      ensures !ok ==> State() == old(State())
      ensures ok ==> w == written.value
      ensures ok ==>
                State() == old(State()).(disk := old(disk)[handle.name := Contents(old(disk), handle.name) + chunk[..w]])
    {
      ok, w := false, 0;
      if handle.Open? && written.Some? {
        ok, w := true, written.value;
        disk := disk[handle.name := Contents(disk, handle.name) + chunk[..w]];
      }
    }

    /** A tagged reply. */
    method TakeReply(index: nat, p: seq<byte>) returns (rest: Rest)
      requires index < 4
      modifies this
      ensures Half(State(), rest) ==
              if index == 3 then HeaderStarts(old(State()), Announced(p))
              else if index == 2 then Half(old(State()).(fileSize := Announced(p)), Nothing)
              else Half(old(State()), Nothing)
    {
      hide Announced;
      rest := Nothing;
      match index
      case 0 =>
      case 1 =>
      case 2 => fileSize := Announced(p);
      case _ =>
        total := 0;
        fileSize := Announced(p);
        if fileSize == 0 {
          flag := 1;
        } else {
          flag := 2;
          rest := OpenFile;
        }
    }

    /** A piece of the file; `fault` is a division by zero in the progress rate. */
    method TakeContent(chunk: seq<byte>, written: Option<nat>) returns (fault: bool, rest: Rest)
      requires written.Some? ==> written.value <= |chunk|
      modifies this
      ensures var half := ContentStarts(old(State()), chunk, written);
              if fault then half == None else half == Some(Half(State(), rest))
    {
      fault, rest := false, Nothing;
      if flag == 2 {
        var ok, w := WriteFile(chunk, written);
        if ok {
          total := (total + w) % TWO32;
          assert State() == AfterAppend(old(State()), chunk, w);
          if fileSize == 0 {
            return true, rest;
          }
          rate := (100 * total % TWO32) / fileSize;
          if total >= fileSize {
            rest := CloseFile;
          }
        }
      }
    }

    /** proc() up to opening or closing the file. */
    method ProcStart(buf: array<byte>, len: nat, written: Option<nat>) returns (fault: bool, rest: Rest)
      requires len < buf.Length && (written.Some? ==> written.value <= len)
      modifies this, buf
      ensures var half := Starts(old(State()), old(buf[..len]), written);
              if fault then half == None else half == Some(Half(State(), rest))
    {
      ghost var chunk := buf[..len];
      fault := false;
      buf[len] := 0;
      TextOfBuffer(buf[..], chunk);
      var text := CString(buf[..]);
      var p := AfterComma(text);
      var index := GetTagIndex(text);
      assert buf[..len] == chunk;
      ClassifyIs(chunk, text, p, index);
      hide Classify, CString, AfterComma, TagIndex, Announced, Contains, HeaderStarts, ContentStarts;
      if index < 4 && p.Some? {
        rest := TakeReply(index, p.value);
      } else {
        fault, rest := TakeContent(buf[..len], written);
      }
    }

    /** The rest of proc(). */
    method ProcEnd(rest: Rest, created: bool)
      modifies this
      ensures State() == Ends(old(State()), rest, created)
    {
      match rest
      case Nothing =>
      case OpenFile => InitFile(dwName, created);
      case CloseFile =>
        DeinitFile();
        flag := 3;
    }

    /** One chunk from the reader thread, start to end. */
    method Proc(buf: array<byte>, len: nat, created: bool, written: Option<nat>) returns (fault: bool)
      requires len < buf.Length && (written.Some? ==> written.value <= len)
      modifies this, buf
      ensures var half := Starts(old(State()), old(buf[..len]), written);
              if fault then half == None else half.Some? && State() == Ends(half.value.rx, half.value.rest, created)
    {
      var rest;
      fault, rest := ProcStart(buf, len, written);
      if !fault {
        ProcEnd(rest, created);
      }
    }
  }

  lemma TextOfBuffer(whole: seq<byte>, chunk: seq<byte>)
    requires |chunk| < |whole| && whole[..|chunk|] == chunk && whole[|chunk|] == 0
    ensures CString(whole) == CString(chunk)
  {
    var t := CString(chunk);
    assert forall i :: 0 <= i < |chunk| ==> whole[i] == chunk[i];
    CStringIs(whole, |t|);
    assert whole[..|t|] == chunk[..|t|];
  }

  lemma ClassifyIs(chunk: seq<byte>, text: seq<byte>, p: Option<seq<byte>>, index: nat)
    requires text == CString(chunk) && p == AfterComma(text) && index == TagIndex(text)
    ensures index <= 4
    ensures Classify(chunk) ==
            if index == 4 || p == None then Content
            else if index == 3 then FileRead(Announced(p.value))
            else if index == 2 then FileSize(Announced(p.value)) else Ignored
  {
  }
}
