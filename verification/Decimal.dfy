/** The decimal printer of modem/ymodem.cpp and the numerals it writes. */
module Decimal {
  import opened Bytes

  const ASCII_ZERO: byte := 48

  /** The ASCII digits. */
  function Digit(d: nat): (b: byte)
    requires d < 10
    ensures IsDigit(b) && DigitValue(b) == d
  {
    match d
    case 0 => 48 case 1 => 49 case 2 => 50 case 3 => 51 case 4 => 52
    case 5 => 53 case 6 => 54 case 7 => 55 case 8 => 56 case 9 => 57
  }

  predicate IsDigit(b: byte) {
    48 <= b <= 57
  }

  function DigitValue(b: byte): (d: nat)
    requires IsDigit(b)
    ensures d < 10
  {
    if b == 48 then 0 else if b == 49 then 1 else if b == 50 then 2 else if b == 51 then 3 else if b == 52 then 4
    else if b == 53 then 5 else if b == 54 then 6 else if b == 55 then 7 else if b == 56 then 8 else 9
  }

  lemma DigitOfByte(b: byte)
    requires IsDigit(b)
    ensures Digit(DigitValue(b)) == b
  {
  }

  lemma DigitsAreAscii(d: nat)
    requires d < 10
    ensures Digit(d) as int == d + 48
  {
    hide IsDigit, DigitValue;
  }

  /** The canonical numeral: no leading zero, except "0" itself. */
  function Numeral(n: nat): (s: seq<byte>)
    ensures |s| >= 1
    ensures forall i :: 0 <= i < |s| ==> IsDigit(s[i])
  {
    if n < 10 then [Digit(n)] else Numeral(n / 10) + [Digit(n % 10)]
  }

  /** The number a digit string denotes. */
  function Value(s: seq<byte>): nat
    requires forall i :: 0 <= i < |s| ==> IsDigit(s[i])
  {
    if s == [] then 0 else 10 * Value(s[..|s| - 1]) + DigitValue(s[|s| - 1])
  }

  lemma {:induction false} NumeralValue(n: nat)
    ensures Value(Numeral(n)) == n
  {
    if n >= 10 {
      NumeralValue(n / 10);
      assert Numeral(n)[..|Numeral(n)| - 1] == Numeral(n / 10);
    } else {
      assert Numeral(n)[..0] == [];
    }
  }

  lemma {:induction false} NoLeadingZero(n: nat)
    requires n > 0
    ensures Numeral(n)[0] != ASCII_ZERO
  {
    if n < 10 {
    } else {
      NoLeadingZero(n / 10);
    }
  }

  lemma {:induction false} NumeralUnique(s: seq<byte>)
    requires s != [] && forall i :: 0 <= i < |s| ==> IsDigit(s[i])
    requires s[0] != ASCII_ZERO || |s| == 1
    ensures Numeral(Value(s)) == s
    decreases |s|
  {
    var init, last := s[..|s| - 1], s[|s| - 1];
    DigitOfByte(last);
    if |s| == 1 {
      assert init == [] && s == [last];
    } else {
      NumeralUnique(init);
      PositiveValue(init);
      NumeralSnoc(Value(init), DigitValue(last));
      assert s == init + [last];
    }
  }

  lemma NumeralSnoc(n: nat, d: nat)
    requires n > 0 && d < 10
    ensures Numeral(10 * n + d) == Numeral(n) + [Digit(d)]
  {
    TenTimes(n, d);
  }

  lemma TenTimes(n: nat, d: nat)
    requires d < 10
    ensures (10 * n + d) / 10 == n && (10 * n + d) % 10 == d
  {
  }

  lemma {:induction false} PositiveValue(s: seq<byte>)
    requires s != [] && forall i :: 0 <= i < |s| ==> IsDigit(s[i])
    requires s[0] != ASCII_ZERO
    ensures Value(s) > 0
    decreases |s|
  {
    if |s| > 1 {
      PositiveValue(s[..|s| - 1]);
    } else {
      assert s[..0] == [];
    }
  }

  /** Cutting digits off the end makes the number smaller. */
  lemma {:induction false} PrefixIsSmaller(s: seq<byte>, k: nat)
    requires forall i :: 0 <= i < |s| ==> IsDigit(s[i])
    requires k < |s| && s[0] != ASCII_ZERO
    ensures Value(s[..k]) < Value(s)
    decreases |s|
  {
    var init := s[..|s| - 1];
    if k < |init| {
      PrefixIsSmaller(init, k);
      assert s[..k] == init[..k];
    } else {
      assert s[..k] == init;
      if init == [] {
        assert Value(init) == 0;
      } else {
        PositiveValue(init);
      }
    }
  }

  /** The digits a string starts with. */
  function DigitRun(s: seq<byte>): (d: seq<byte>)
    ensures |d| <= |s| && d == s[..|d|]
    ensures forall i :: 0 <= i < |d| ==> IsDigit(s[i]) && IsDigit(d[i])
    ensures |d| < |s| ==> !IsDigit(s[|d|])
  {
    if s == [] || !IsDigit(s[0]) then [] else [s[0]] + DigitRun(s[1..])
  }

  lemma DigitRunIs(s: seq<byte>, n: nat)
    requires n <= |s| && forall i :: 0 <= i < n ==> IsDigit(s[i])
    requires n == |s| || !IsDigit(s[n])
    ensures DigitRun(s) == s[..n]
  {
  }

  function Pow10(k: nat): (p: nat)
    ensures p > 0
  {
    if k == 0 then 1 else 10 * Pow10(k - 1)
  }

  /** A number below 10^k has at most k digits. */
  lemma {:induction false} NumeralLength(n: nat, k: nat)
    requires k > 0
    ensures |Numeral(n)| <= k <==> n < Pow10(k)
  {
    if k == 1 {
      assert Pow10(1) == 10;
      if n >= 10 {
        assert |Numeral(n / 10)| >= 1;
      }
    } else if n >= 10 {
      NumeralLength(n / 10, k - 1);
      assert Pow10(k) == 10 * Pow10(k - 1);
    } else {
      assert Pow10(k) >= Pow10(1) by { Pow10Grows(1, k); }
    }
  }

  lemma {:induction false} Pow10Grows(j: nat, k: nat)
    requires j <= k
    ensures Pow10(j) <= Pow10(k)
    decreases k
  {
    if j == k {
    } else {
      Pow10Grows(j, k - 1);
    }
  }

  // ------------------------------------------------------------------ the code

  const TWO31 := 0x8000_0000
  const TWO32 := 0x1_0000_0000

  /** The value an int32_t holds after being given a uint32_t. */
  function ToInt32(v: nat): int
    requires v < TWO32
  {
    if v < TWO31 then v else v - TWO32
  }

  /** The value of an int32_t operand once the other operand is a uint32_t. */
  function ToUint32(x: int): (v: nat)
    ensures v < TWO32
  {
    x % TWO32
  }

  /** Unsigned 32-bit division and remainder. */
  function Div32(a: nat, b: nat): nat
    requires b > 0
  {
    a / b
  }

  function Mod32(a: nat, b: nat): nat
    requires b > 0
  {
    a % b
  }

  /** What has been written once the leading part of the number is `prefix`. */
  ghost predicate Written(str: seq<byte>, j: nat, status: nat, prefix: nat, started: bool)
  {
    && j <= |str|
    && (status > 0 <==> prefix > 0)
    && (prefix > 0 ==> str[..j] == Numeral(prefix) && forall i :: j <= i < |str| ==> str[i] == 0)
    && (prefix == 0 ==> j == 0 && forall i :: 1 <= i < |str| ==> str[i] == 0)
    && (prefix == 0 && started && |str| > 0 ==> str[0] == ASCII_ZERO)
  }

  lemma WriteDigit(str: seq<byte>, j: nat, status: nat, prefix: nat, started: bool, d: nat)
    requires j < |str| && d < 10 && Written(str, j, status, prefix, started)
    ensures var now := str[j := Digit(d)];
            if d == 0 && status == 0 then Written(now, 0, 0, 10 * prefix + d, true)
            else Written(now, j + 1, status + 1, 10 * prefix + d, true)
  {
    var now := str[j := Digit(d)];
    if prefix > 0 {
      NumeralSnoc(prefix, d);
      assert now[..j + 1] == str[..j] + [Digit(d)];
    } else if d > 0 {
      assert now[..1] == [Digit(d)];
    }
  }

  /** Leading part and remainder still make up the number. */
  ghost predicate Conserved(v: nat, prefix: nat, rest: nat, k: nat) {
    v == prefix * Pow10(k) + rest && rest < Pow10(k)
  }

  lemma SplitDigit(v: nat, prefix: nat, rest: nat, k: nat, div: nat)
    requires k > 0 && Conserved(v, prefix, rest, k) && div == Pow10(k - 1)
    ensures Div32(rest, div) < 10
    ensures Conserved(v, 10 * prefix + Div32(rest, div), Mod32(rest, div), k - 1)
    ensures rest < TWO32 ==> Mod32(rest, div) < TWO32
  {
    DivideDigit(rest, div);
    CollectDigit(prefix, Div32(rest, div), div);
  }

  lemma DivideDigit(rest: nat, div: nat)
    requires 0 < div && rest < 10 * div
    ensures Div32(rest, div) < 10 && Mod32(rest, div) < div
    ensures rest == Div32(rest, div) * div + Mod32(rest, div)
  {
  }

  lemma CollectDigit(prefix: nat, d: nat, div: nat)
    ensures (10 * prefix + d) * div == prefix * (10 * div) + d * div
  {
  }

  lemma SmallUnsigned(x: nat)
    requires x < TWO32
    ensures ToUint32(x) == x
  {
  }

  /** The part of the loop body that writes: a zero before the first significant digit is overwritten later. */
  method PutDigit(str: array<byte>, j0: nat, status0: nat, d: nat, ghost prefix: nat, ghost started: bool)
    returns (j: nat, status: nat)
    requires j0 < str.Length && d < 10 && Written(str[..], j0, status0, prefix, started)
    modifies str
    ensures Written(str[..], j, status, 10 * prefix + d, true)
    ensures j <= j0 + 1
  {
    j, status := j0, status0;
    ghost var before := str[..];
    WriteDigit(before, j, status, prefix, started, d);
    DigitIsZero(d);
    hide Written;
    str[j] := Digit(d);
    assert str[..] == before[j := Digit(d)];
    j := j + 1;
    if str[j - 1] == ASCII_ZERO && status == 0 {
      j := 0;
    } else {
      status := status + 1;
    }
  }

  /** Writes the numeral of the number, read as unsigned although the parameter is signed. */
  method Int2Str(str: array<byte>, number: int)
    requires -TWO31 <= number < TWO31
    requires str.Length == 10
    requires forall i :: 0 <= i < 10 ==> str[i] == 0
    modifies str
    ensures |Numeral(ToUint32(number))| <= 10
    ensures str[..] == Numeral(ToUint32(number)) + Repeat(0, 10 - |Numeral(ToUint32(number))|)
  {
    ghost var v := ToUint32(number);
    ghost var prefix: nat := 0;
    var intnum := number;
    var div: nat := 1_000_000_000;
    var j, status := 0, 0;
    var i := 0;
    hide *;
    BeforeFirstDigit(number, str[..]);
    while i < 10
      invariant i <= 10 && j <= i
      invariant i < 10 ==> div == Pow10(9 - i)
      invariant Conserved(v, prefix, ToUint32(intnum), 10 - i)
      invariant Written(str[..], j, status, prefix, i > 0)
    {
      ghost var rest := ToUint32(intnum);
      ghost var d := Div32(rest, div);
      SplitDigit(v, prefix, rest, 10 - i, div);
      NextPower(9 - i, div);
      SmallUnsigned(Mod32(rest, div));
      j, status := PutDigit(str, j, status, Div32(ToUint32(intnum), div), prefix, i > 0);
      intnum := Mod32(ToUint32(intnum), div);
      div := div / 10;
      prefix := 10 * prefix + d;
      i := i + 1;
    }
    LastConserved(v, prefix, ToUint32(intnum));
    WholeNumeral(str[..], j, status, v);
  }

  lemma DigitIsZero(d: nat)
    requires d < 10
    ensures Digit(d) == ASCII_ZERO <==> d == 0
  {
  }

  lemma BeforeFirstDigit(number: int, str: seq<byte>)
    requires -TWO31 <= number < TWO31
    requires |str| == 10 && forall i :: 0 <= i < 10 ==> str[i] == 0
    ensures ToUint32(number) < TWO32 && Pow10(9) == 1_000_000_000
    ensures Conserved(ToUint32(number), 0, ToUint32(number), 10)
    ensures Written(str, 0, 0, 0, false)
  {
    PowersOfTen();
  }

  lemma LastConserved(v: nat, prefix: nat, rest: nat)
    requires Conserved(v, prefix, rest, 0)
    ensures v == prefix
  {
  }

  lemma NextPower(k: nat, div: nat)
    requires k <= 9 && div == Pow10(k)
    ensures div <= 1_000_000_000
    ensures k > 0 ==> div / 10 == Pow10(k - 1)
  {
    Pow10Grows(k, 9);
    PowersOfTen();
  }

  lemma WholeNumeral(str: seq<byte>, j: nat, status: nat, v: nat)
    requires |str| == 10 && v < TWO32 && Written(str, j, status, v, true)
    ensures |Numeral(v)| <= 10 && str == Numeral(v) + Repeat(0, 10 - |Numeral(v)|)
  {
    PowersOfTen();
    NumeralLength(v, 10);
    if v > 0 {
      assert str == str[..j] + Repeat(0, 10 - j);
    } else {
      assert Numeral(0) == [Digit(0)];
      assert str == [ASCII_ZERO] + Repeat(0, 9);
    }
  }

  lemma PowersOfTen()
    ensures Pow10(9) == 1_000_000_000 && Pow10(10) == 10_000_000_000
  {
    assert Pow10(3) == 1_000;
    assert Pow10(6) == 1_000_000;
    assert Pow10(9) == 1_000_000_000;
  }
}
