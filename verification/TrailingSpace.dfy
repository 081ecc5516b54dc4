/**
 skip_trailing_space of sql_api/m_string.h: a backward scan a word at a time, which must stop
 where the scan an octet at a time stops. Memory is the string's own octets, at a numeric
 address; every read is shown to lie inside it.
 */
module TrailingSpace {
  import opened Bytes

  const SPACE: byte := 0x20

  /** The plain scan: the length that remains once trailing spaces are gone. */
  function Trimmed(s: seq<byte>): (n: nat)
    ensures n <= |s|
  {
    if s == [] || s[|s| - 1] != SPACE then |s| else Trimmed(s[..|s| - 1])
  }

  predicate AllSpaces(s: seq<byte>) {
    forall i :: 0 <= i < |s| ==> s[i] == SPACE
  }

  /** The plain scan stops at the only place it should. */
  lemma {:induction false} TrimmedIff(s: seq<byte>, n: nat)
    requires n <= |s|
    ensures n == Trimmed(s) <==> AllSpaces(s[n..]) && (n > 0 ==> s[n - 1] != SPACE)
    decreases |s|
  {
    if s == [] || s[|s| - 1] != SPACE {
      if n < |s| {
        assert s[n..][|s| - 1 - n] != SPACE;
      }
    } else {
      var init := s[..|s| - 1];
      if n == |s| {
        assert Trimmed(s) < |s|;
      } else {
        TrimmedIff(init, n);
        assert s[n..] == init[n..] + [SPACE];
        assert AllSpaces(s[n..]) ==> AllSpaces(init[n..]) by {
          assert forall i :: 0 <= i < |init[n..]| ==> init[n..][i] == s[n..][i];
        }
      }
    }
  }

  // ------------------------------------------------------------------ words

  function Number(b: byte): nat {
    b as nat
  }

  lemma NumberOfSpace(b: byte)
    ensures Number(b) < 256
    ensures Number(b) == 0x20 <==> b == SPACE
  {
  }

  /** An unsigned word as stored, least significant octet first. */
  function Word(s: seq<byte>): nat {
    if s == [] then 0 else Number(s[0]) + 256 * Word(s[1..])
  }

  /** SPACE_INT for a word of `w` octets. */
  function SpaceInt(w: nat): nat {
    if w == 0 then 0 else 0x20 + 256 * SpaceInt(w - 1)
  }

  lemma SpaceInts()
    ensures SpaceInt(4) == 0x20202020 && SpaceInt(8) == 0x2020202020202020
  {
    assert SpaceInt(2) == 0x2020;
    assert SpaceInt(6) == 0x202020202020;
  }

  lemma LowOctet(a: nat, b: nat, x: nat, y: nat)
    requires a < 256 && b < 256
    ensures a + 256 * x == b + 256 * y <==> a == b && x == y
  {
  }

  /** Comparing a word with SPACE_INT compares every octet with a space. */
  lemma {:induction false} WordIsSpaces(s: seq<byte>)
    ensures Word(s) == SpaceInt(|s|) <==> AllSpaces(s)
    decreases |s|
  {
    if s == [] {
    } else {
      hide Number;
      WordIsSpaces(s[1..]);
      NumberOfSpace(s[0]);
      LowOctet(Number(s[0]), 0x20, Word(s[1..]), SpaceInt(|s| - 1));
      assert AllSpaces(s) <==> s[0] == SPACE && AllSpaces(s[1..]) by {
        assert forall i :: 1 <= i < |s| ==> s[i] == s[1..][i - 1];
      }
    }
  }

  // ------------------------------------------------------------------ the code

  predicate Aligned(addr: nat, w: nat)
    requires w > 0
  {
    addr % w == 0
  }

  /** *(uchar*)addr */
  method ReadOctet(buf: array<byte>, ptr: nat, addr: nat) returns (b: byte)
    requires ptr <= addr < ptr + buf.Length
    ensures b == buf[addr - ptr]
  {
    b := buf[addr - ptr];
  }

  /** *(unsigned*)addr: only aligned words inside the string may be read. */
  method ReadWord(buf: array<byte>, ptr: nat, addr: nat, w: nat) returns (v: nat)
    requires w > 0 && Aligned(addr, w)
    requires ptr <= addr && addr + w <= ptr + buf.Length
    ensures v == Word(buf[addr - ptr..addr - ptr + w])
  {
    v := Word(buf[addr - ptr..addr - ptr + w]);
  }

  /** Rounding an address down and up to a multiple of the word size. */
  function Down(addr: nat, w: nat): (r: nat)
    requires w == 4 || w == 8
    ensures r <= addr < r + w && Aligned(r, w)
  {
    addr / w * w
  }

  function Up(addr: nat, w: nat): (r: nat)
    requires w == 4 || w == 8
    ensures addr <= r < addr + w && Aligned(r, w)
  {
    (addr + w - 1) / w * w
  }

  lemma WordSteps(end: nat, start: nat, w: nat)
    requires w == 4 || w == 8
    requires Aligned(end, w) && Aligned(start, w) && end > start
    ensures end - w >= start && Aligned(end - w, w)
  {
  }

  /** One word of spaces less to look at. */
  lemma WordDropped(s: seq<byte>, n: nat, w: nat)
    requires w <= n <= |s| && AllSpaces(s[n..]) && AllSpaces(s[n - w..n])
    ensures AllSpaces(s[n - w..])
  {
    assert s[n - w..] == s[n - w..n] + s[n..];
  }

  /** `w` is sizeof(int), `ptr` the address of the string, which is all of `buf`. */
  method SkipTrailingSpace(buf: array<byte>, ptr: nat, w: nat) returns (end: nat)
    requires w == 4 || w == 8
    ensures end == ptr + Trimmed(buf[..])
  {
    end := ptr + buf.Length;
    NoneDropped(buf[..]);
    hide *;
    if buf.Length > 20 {
      end := SkipAligned(buf, ptr, w);
    }
    end := SkipOctets(buf, ptr, end);
    TrimmedIff(buf[..], end - ptr);
  }

  lemma NoneDropped(s: seq<byte>)
    ensures AllSpaces(s[|s|..])
  {
  }

  /** The fast part, for strings of more than twenty octets. */
  method SkipAligned(buf: array<byte>, ptr: nat, w: nat) returns (end: nat)
    requires (w == 4 || w == 8) && buf.Length > 20
    ensures ptr <= end <= ptr + buf.Length && AllSpaces(buf[end - ptr..])
  {
    end := ptr + buf.Length;
    NoneDropped(buf[..]);
    hide *;
    var endWords := Down(end, w);
    var startWords := Up(ptr, w);
    if endWords > ptr {
      end := SkipTail(buf, ptr, endWords);
      var octet := ReadOctet(buf, ptr, end - 1);
      if octet == SPACE && startWords < endWords {
        end := SkipWords(buf, ptr, w, startWords, end);
      }
    }
  }

  /** The first loop: octets down to the last word boundary. */
  method SkipTail(buf: array<byte>, ptr: nat, endWords: nat) returns (end: nat)
    requires ptr < endWords <= ptr + buf.Length
    ensures endWords <= end <= ptr + buf.Length && AllSpaces(buf[end - ptr..])
    ensures buf[end - 1 - ptr] == SPACE ==> end == endWords
  {
    end := ptr + buf.Length;
    while end > endWords
      invariant endWords <= end <= ptr + buf.Length && AllSpaces(buf[end - ptr..])
    {
      var octet := ReadOctet(buf, ptr, end - 1);
      if octet != SPACE {
        break;
      }
      WordDropped(buf[..], end - ptr, 1);
      end := end - 1;
    }
  }

  /** The middle loop: whole words of spaces. */
  method SkipWords(buf: array<byte>, ptr: nat, w: nat, startWords: nat, end0: nat) returns (end: nat)
    requires w == 4 || w == 8
    requires ptr <= startWords <= end0 <= ptr + buf.Length && Aligned(startWords, w) && Aligned(end0, w)
    requires AllSpaces(buf[end0 - ptr..])
    ensures startWords <= end <= end0 && AllSpaces(buf[end - ptr..])
  {
    hide *;
    end := end0;
    while end > startWords
      invariant startWords <= end <= end0 && Aligned(end, w)
      invariant AllSpaces(buf[end - ptr..])
    {
      WordSteps(end, startWords, w);
      var word := ReadWord(buf, ptr, end - w, w);
      WordAtEnd(buf[..], end - ptr, w);
      if word != SpaceInt(w) {
        break;
      }
      end := end - w;
    }
  }

  /** The word before position n is blank exactly when it equals SPACE_INT, and then the blanks reach further. */
  lemma WordAtEnd(s: seq<byte>, n: nat, w: nat)
    requires w <= n <= |s| && AllSpaces(s[n..])
    ensures Word(s[n - w..n]) == SpaceInt(w) ==> AllSpaces(s[n - w..])
  {
    hide Word, SpaceInt;
    WordIsSpaces(s[n - w..n]);
    if AllSpaces(s[n - w..n]) {
      WordDropped(s, n, w);
    }
  }

  /** The last loop: single octets. */
  method SkipOctets(buf: array<byte>, ptr: nat, end0: nat) returns (end: nat)
    requires ptr <= end0 <= ptr + buf.Length && AllSpaces(buf[end0 - ptr..])
    ensures ptr <= end <= end0 && AllSpaces(buf[end - ptr..])
    ensures end > ptr ==> buf[end - 1 - ptr] != SPACE
  {
    end := end0;
    while end > ptr
      invariant ptr <= end <= end0 && AllSpaces(buf[end - ptr..])
    {
      var octet := ReadOctet(buf, ptr, end - 1);
      if octet != SPACE {
        break;
      }
      WordDropped(buf[..], end - ptr, 1);
      end := end - 1;
    }
  }
}
