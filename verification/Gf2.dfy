/**
 Polynomials over GF(2) as bit strings, most significant coefficient first, and
 division by the CCITT generator x^16 + x^12 + x^5 + 1, which is the CRC-16 option
 of section 8.1 of the XMODEM/YMODEM Protocol Reference.
 */
module Gf2 {

  type Bits = seq<bool>

  /** A 16-bit register: a polynomial of degree below 16. */
  type Register = r: Bits | |r| == 16 witness Zeros(16)

  /** The generator without its leading term: x^12 + x^5 + 1. */
  function Taps(): (t: Register)
    ensures forall i :: 0 <= i < 16 ==> t[i] == Tap(i)
  {
    seq(16, i => Tap(i))
  }

  predicate Tap(i: int) { i == 3 || i == 10 || i == 15 }

  const ZERO: Register := Zeros(16)

  function Zeros(n: nat): (z: Bits)
    ensures |z| == n
    ensures forall i :: 0 <= i < n ==> !z[i]
  {
    seq(n, i => false)
  }

  /** Addition of polynomials. */
  function Xor(a: Bits, b: Bits): (c: Bits)
    requires |a| == |b|
    ensures |c| == |a|
    ensures forall i :: 0 <= i < |a| ==> c[i] == (a[i] != b[i])
  {
    seq(|a|, i requires 0 <= i < |a| => a[i] != b[i])
  }

  /** The generator, or zero when `b` is false, times x^n. */
  function Multiple(b: bool, n: nat): (p: Bits)
    ensures |p| == n + 17
    ensures p[0] == b
    ensures forall i :: 1 <= i < 17 ==> p[i] == (b && Tap(i - 1))
    ensures forall i :: 17 <= i < n + 17 ==> !p[i]
  {
    seq(n + 17, i => b && (i == 0 || (1 <= i < 17 && Tap(i - 1))))
  }

  /** The product of `q` and the generator. */
  function TimesGenerator(q: Bits): (p: Bits)
    ensures |p| == |q| + 16
  {
    if q == [] then ZERO
    else Xor(Multiple(q[0], |q| - 1), [false] + TimesGenerator(q[1..]))
  }

  /** `p` divided by the generator leaves quotient `q` and remainder `r`. */
  predicate Divides(p: Bits, q: Bits, r: Register) {
    |p| == |q| + 16 && p == Xor(TimesGenerator(q), Zeros(|q|) + r)
  }

  /** One bit shifted into the division register. */
  function Step(r: Register, b: bool): Register {
    var s := r[1..] + [b];
    if r[0] then Xor(s, Taps()) else s
  }

  lemma StepAt(r: Register, b: bool, i: nat)
    requires i < 16
    ensures Step(r, b)[i] == ((if i < 15 then r[i + 1] else b) != (r[0] && Tap(i)))
  {
  }

  function Run(r: Register, m: Bits): Register
    decreases |m|
  {
    if m == [] then r else Run(Step(r, m[0]), m[1..])
  }

  /** The bits that drop out of the register while `m` is shifted in. */
  function Quotient(r: Register, m: Bits): (q: Bits)
    ensures |q| == |m|
    decreases |m|
  {
    if m == [] then [] else [r[0]] + Quotient(Step(r, m[0]), m[1..])
  }

  lemma {:induction false} RunAppend(r: Register, a: Bits, b: Bits)
    ensures Run(r, a + b) == Run(Run(r, a), b)
    decreases |a|
  {
    if a == [] {
      assert a + b == b;
    } else {
      RunAppend(Step(r, a[0]), a[1..], b);
      assert (a + b)[1..] == a[1..] + b;
    }
  }

  /** One step subtracts the multiple of the generator that cancels the leading bit. */
  lemma StepCancels(r: Register, m: Bits)
    requires m != []
    ensures r + m == Xor(Multiple(r[0], |m| - 1), [false] + (Step(r, m[0]) + m[1..]))
  {
    var r', head := Step(r, m[0]), Multiple(r[0], |m| - 1);
    var rest := [false] + (r' + m[1..]);
    forall i | 0 <= i < |m| + 16
      ensures (r + m)[i] == (head[i] != rest[i])
    {
      if 1 <= i < 17 {
        StepAt(r, m[0], i - 1);
        assert rest[i] == r'[i - 1];
      } else if 17 <= i {
        assert rest[i] == m[i - 16];
      }
    }
    assert r + m == Xor(head, rest);
  }

  /** Putting the cancelled multiple back turns a division of the rest into one of the whole. */
  lemma DivisionStep(r: Register, m: Bits, q: Bits, rest: Register)
    requires m != [] && |q| == |m| - 1 && Divides(Step(r, m[0]) + m[1..], q, rest)
    ensures Divides(r + m, [r[0]] + q, rest)
  {
    StepCancels(r, m);
    var low, pad := TimesGenerator(q), Zeros(|q|) + rest;
    var head := Multiple(r[0], |q|);
    assert ([r[0]] + q)[1..] == q;
    assert TimesGenerator([r[0]] + q) == Xor(head, [false] + low);
    assert Zeros(|m|) + rest == [false] + pad;
    assert r + m == Xor(head, [false] + Xor(low, pad));
    assert r + m == Xor(Xor(head, [false] + low), [false] + pad);
  }

  /** Shifting `m` through a register holding `r` is long division of r * x^|m| + m. */
  lemma {:induction false} LongDivision(r: Register, m: Bits)
    ensures Divides(r + m, Quotient(r, m), Run(r, m))
    decreases |m|
  {
    if m == [] {
      assert r + m == Xor(ZERO, Zeros(0) + r);
    } else {
      LongDivision(Step(r, m[0]), m[1..]);
      DivisionStep(r, m, Quotient(Step(r, m[0]), m[1..]), Run(r, m));
    }
  }

  /** Take the leading multiple of the generator away from both sides of a division. */
  lemma StripLeading(p: Bits, q: Bits, r: Register)
    requires q != [] && Divides(p, q, r)
    ensures p[0] == q[0]
    ensures Divides(Xor(p, Multiple(q[0], |q| - 1))[1..], q[1..], r)
  {
    var head, t := Multiple(q[0], |q| - 1), TimesGenerator(q[1..]);
    var pad := Zeros(|q|) + r;
    var p' := Xor(p, head)[1..];
    forall i | 0 <= i < |p'|
      ensures p'[i] == (t[i] != (Zeros(|q| - 1) + r)[i])
    {
      assert pad[i + 1] == (Zeros(|q| - 1) + r)[i];
      assert ([false] + t)[i + 1] == t[i];
    }
    assert p' == Xor(t, Zeros(|q| - 1) + r);
  }

  /** Quotient and remainder are determined by the dividend. */
  lemma {:induction false} DivisionIsUnique(p: Bits, q: Bits, r: Register, q': Bits, r': Register)
    requires Divides(p, q, r) && Divides(p, q', r')
    ensures q == q' && r == r'
    decreases |q|
  {
    if q == [] {
      assert Zeros(0) + r == r && Zeros(0) + r' == r';
      assert forall i :: 0 <= i < 16 ==> p[i] == r[i] && p[i] == r'[i];
    } else {
      StripLeading(p, q, r);
      StripLeading(p, q', r');
      DivisionIsUnique(Xor(p, Multiple(q[0], |q| - 1))[1..], q[1..], r, q'[1..], r');
      assert q == [q[0]] + q[1..] && q' == [q'[0]] + q'[1..];
    }
  }

  /** The first sixteen bits fill an empty register unchanged. */
  lemma {:induction false} ShiftIn(m: Bits)
    requires |m| <= 16
    ensures Run(ZERO, m) == Zeros(16 - |m|) + m
    decreases |m|
  {
    if m == [] {
      assert ZERO == Zeros(16) + [];
    } else {
      var n := |m| - 1;
      ShiftIn(m[..n]);
      assert m == m[..n] + [m[n]];
      RunAppend(ZERO, m[..n], [m[n]]);
      var r := Run(ZERO, m[..n]);
      assert Run(r, [m[n]]) == Step(r, m[n]) by { assert [m[n]][1..] == []; }
    }
  }

  lemma StepXor(r: Register, s: Register, a: bool, b: bool)
    ensures Step(Xor(r, s), a != b) == Xor(Step(r, a), Step(s, b))
  {
    forall i | 0 <= i < 16
      ensures Step(Xor(r, s), a != b)[i] == Xor(Step(r, a), Step(s, b))[i]
    {
      hide Step;
      StepAt(Xor(r, s), a != b, i);
      StepAt(r, a, i);
      StepAt(s, b, i);
    }
  }

  lemma {:induction false} Linear(r: Register, s: Register, a: Bits, b: Bits)
    requires |a| == |b|
    ensures Run(Xor(r, s), Xor(a, b)) == Xor(Run(r, a), Run(s, b))
    decreases |a|
  {
    if a == [] {
    } else {
      StepXor(r, s, a[0], b[0]);
      assert Xor(a, b)[1..] == Xor(a[1..], b[1..]);
      Linear(Step(r, a[0]), Step(s, b[0]), a[1..], b[1..]);
    }
  }

  /** Shifting zeros in loses nothing: it takes exactly the zero register to zero. */
  lemma {:induction false} ZeroRunIsInjective(r: Register, n: nat)
    ensures Run(r, Zeros(n)) == ZERO <==> r == ZERO
    decreases n
  {
    if n == 0 {
    } else {
      assert Zeros(n)[1..] == Zeros(n - 1);
      var s := Step(r, false);
      ZeroRunIsInjective(s, n - 1);
      StepAt(r, false, 15);
      if s == ZERO {
        assert !s[15];
        forall i | 0 < i < 16
          ensures !r[i]
        {
          assert s[i - 1] == r[i];
        }
        assert r == ZERO;
      }
      assert r == ZERO ==> s == ZERO;
    }
  }

  lemma {:induction false} XorZeroIffEqual(a: Bits, b: Bits)
    requires |a| == |b|
    ensures Xor(a, b) == Zeros(|a|) <==> a == b
  {
    if Xor(a, b) == Zeros(|a|) {
      assert forall i :: 0 <= i < |a| ==> !Xor(a, b)[i];
    }
  }

  /** Number of one bits. */
  function Ones(m: Bits): nat {
    if m == [] then 0 else (if m[0] then 1 else 0) + Ones(m[1..])
  }

  lemma {:induction false} OnesAppend(a: Bits, b: Bits)
    ensures Ones(a + b) == Ones(a) + Ones(b)
    decreases |a|
  {
    if a == [] {
      assert a + b == b;
    } else {
      OnesAppend(a[1..], b);
      assert (a + b)[1..] == a[1..] + b;
    }
  }

  lemma {:induction false} OnesXor(a: Bits, b: Bits)
    requires |a| == |b|
    ensures Ones(Xor(a, b)) % 2 == (Ones(a) + Ones(b)) % 2
    decreases |a|
  {
    if a == [] {
    } else {
      OnesXor(a[1..], b[1..]);
      assert Xor(a, b)[1..] == Xor(a[1..], b[1..]);
    }
  }

  lemma {:induction false} OnesZeros(n: nat)
    ensures Ones(Zeros(n)) == 0
    decreases n
  {
    if n == 0 {
    } else {
      OnesZeros(n - 1);
      assert Zeros(n)[1..] == Zeros(n - 1);
    }
  }

  lemma OnesTaps()
    ensures Ones(Taps()) == 3
  {
    assert Taps() == Zeros(3) + [true] + (Zeros(6) + [true] + (Zeros(4) + [true]));
    OnesZeros(3);
    OnesZeros(6);
    OnesZeros(4);
    assert Ones([true]) == 1;
    OnesAppend(Zeros(4), [true]);
    OnesAppend(Zeros(6), [true]);
    OnesAppend(Zeros(6) + [true], Zeros(4) + [true]);
    OnesAppend(Zeros(3), [true]);
    OnesAppend(Zeros(3) + [true], Zeros(6) + [true] + (Zeros(4) + [true]));
  }

  lemma StepKeepsParity(r: Register, b: bool)
    ensures Ones(Step(r, b)) % 2 == (Ones(r) + (if b then 1 else 0)) % 2
  {
    var s := r[1..] + [b];
    OnesAppend(r[1..], [b]);
    assert Ones([b]) == (if b then 1 else 0) by { assert [b][1..] == []; }
    assert Ones(r) == (if r[0] then 1 else 0) + Ones(r[1..]);
    if r[0] {
      OnesTaps();
      OnesXor(s, Taps());
    }
    hide Taps, Ones, Xor;
  }

  /** The generator has an even number of terms, so the register keeps the parity of what it saw. */
  lemma {:induction false} RunKeepsParity(r: Register, m: Bits)
    ensures Ones(Run(r, m)) % 2 == (Ones(r) + Ones(m)) % 2
    decreases |m|
  {
    if m == [] {
    } else {
      StepKeepsParity(r, m[0]);
      RunKeepsParity(Step(r, m[0]), m[1..]);
    }
  }
}
