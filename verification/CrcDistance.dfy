/**
 How far the CRC-16 tells messages apart: two flipped bits go unnoticed exactly when their
 distance is a multiple of 32767, the order of x modulo the generator. No YMODEM block is that
 long, so one, two or three flipped bits never pass.
 */
module CrcDistance {
  import opened Arithmetic
  import opened Bytes
  import opened Gf2
  import opened Crc16

  const ORDER := 32767

  /** The polynomial 1. */
  function One(): (r: Register)
    ensures forall i :: 0 <= i < 16 ==> r[i] == (i == 15)
  {
    seq(16, i => i == 15)
  }

  /** x^n modulo the generator. */
  function Power(n: nat): Register {
    Run(One(), Zeros(n))
  }

  /** a(x) * b(x) modulo the generator, leading coefficient of `a` first. */
  function Product(a: Bits, b: Register): Register {
    if a == [] then ZERO
    else
      var acc := Step(Product(a[..|a| - 1], b), false);
      if a[|a| - 1] then Xor(acc, b) else acc
  }

  lemma RunSnoc(r: Register, m: Bits, b: bool)
    ensures Run(r, m + [b]) == Step(Run(r, m), b)
  {
    RunAppend(r, m, [b]);
    assert [b][1..] == [];
  }

  lemma ZerosSnoc(n: nat)
    ensures Zeros(n) + [false] == Zeros(n + 1) && [false] + Zeros(n) == Zeros(n + 1)
  {
  }

  lemma PowerNext(r: Register, n: nat)
    ensures Run(r, Zeros(n + 1)) == Step(Run(r, Zeros(n)), false) == Run(Step(r, false), Zeros(n))
  {
    RunSnoc(r, Zeros(n), false);
    ZerosSnoc(n);
    assert Zeros(n + 1)[1..] == Zeros(n);
  }

  lemma PowerSum(r: Register, m: nat, n: nat)
    ensures Run(r, Zeros(m + n)) == Run(Run(r, Zeros(m)), Zeros(n))
  {
    RunAppend(r, Zeros(m), Zeros(n));
    assert Zeros(m) + Zeros(n) == Zeros(m + n);
  }

  /** A one shifted in is a one added after a zero shifted in. */
  lemma StepOne(r: Register)
    ensures Step(r, true) == Xor(Step(r, false), One())
  {
    forall i | 0 <= i < 16
      ensures Step(r, true)[i] == Xor(Step(r, false), One())[i]
    {
      StepAt(r, true, i);
      StepAt(r, false, i);
    }
  }

  lemma RunZerosXor(r: Register, s: Register, n: nat)
    ensures Run(Xor(r, s), Zeros(n)) == Xor(Run(r, Zeros(n)), Run(s, Zeros(n)))
  {
    Linear(r, s, Zeros(n), Zeros(n));
    assert Xor(Zeros(n), Zeros(n)) == Zeros(n);
  }

  /** Multiplying by x^n is shifting n zeros in. */
  lemma {:induction false} TimesPower(a: Bits, n: nat)
    ensures Product(a, Power(n)) == Run(Run(ZERO, a), Zeros(n))
    decreases |a|
  {
    if a == [] {
      ZeroRunIsInjective(ZERO, n);
    } else {
      var init, last := a[..|a| - 1], a[|a| - 1];
      TimesPower(init, n);
      var before := Run(ZERO, init);
      RunSnoc(ZERO, init, last);
      assert a == init + [last];
      PowerNext(before, n);
      if last {
        StepOne(before);
        RunZerosXor(Step(before, false), One(), n);
      }
    }
  }

  lemma PowerProduct(m: nat, n: nat)
    ensures Power(m + n) == Product(Power(m), Power(n))
  {
    TimesPower(Power(m), n);
    ShiftIn(Power(m));
    assert Zeros(0) + Power(m) == Power(m);
    PowerSum(One(), m, n);
  }

  // ------------------------------------------------------------------ powers, computed

  /** Multiplication by x in the low sixteen bits of a word. */
  function Twice(x: bv32): bv32 {
    Folded(Doubled(x, false)) & 0xffff
  }

  function Plus(x: bv32, y: bv32): bv32 {
    x ^ y
  }

  predicate BitAt(x: bv32, place: bv32)
    requires place < 16
  {
    (x >> place) & 1 == 1
  }

  /** One coefficient of `x` more. */
  function Turn(acc: bv32, x: bv32, y: bv32, place: bv32): bv32
    requires place < 16
  {
    if BitAt(x, place) then Plus(Twice(acc), y) else Twice(acc)
  }

  function Four(acc: bv32, x: bv32, y: bv32, place: bv32): bv32
    requires 3 <= place < 16
  {
    Turn(Turn(Turn(Turn(acc, x, y, place), x, y, place - 1), x, y, place - 2), x, y, place - 3)
  }

  function Times(x: bv32, y: bv32): bv32 {
    Four(Four(Four(Four(0, x, y, 15), x, y, 11), x, y, 7), x, y, 3)
  }

  lemma Low16Xor(x: bv32, y: bv32)
    ensures Low16(Plus(x, y)) == Xor(Low16(x), Low16(y))
  {
    forall i | 0 <= i < 16
      ensures Bit(x ^ y, i) == (Bit(x, i) != Bit(y, i))
    {
      BitOfXor(x, y, Place(i));
    }
  }

  lemma TwiceIsStep(x: bv32)
    ensures Low16(Twice(x)) == Step(Low16(x), false)
  {
    ShiftedIsStep(x, false);
    hide Folded, Doubled, Step;
    Masked(Folded(Doubled(x, false)), Twice(x));
  }

  /** `acc` is the product of the first `k` coefficients. */
  ghost predicate Partial(acc: bv32, x: bv32, y: bv32, k: nat) {
    k <= 16 && Low16(acc) == Product(Low16(x)[..k], Low16(y))
  }

  lemma ProductSnoc(a: Bits, last: bool, b: Register)
    ensures Product(a + [last], b) == if last then Xor(Step(Product(a, b), false), b) else Step(Product(a, b), false)
  {
    assert (a + [last])[..|a|] == a;
    hide Step, Xor;
  }

  lemma NextCoefficient(x: bv32, k: nat)
    requires k < 16
    ensures Low16(x)[..k + 1] == Low16(x)[..k] + [Bit(x, 15 - k)]
  {
    hide Bit;
  }

  lemma SameBit(x: bv32, i: nat, place: bv32)
    requires i < 16 && place < 16 && place == Place(i)
    ensures Bit(x, i) == BitAt(x, place)
  {
    hide Place;
  }

  lemma TurnCases(acc: bv32, x: bv32, y: bv32, place: bv32)
    requires place < 16
    ensures Turn(acc, x, y, place) == if BitAt(x, place) then Plus(Twice(acc), y) else Twice(acc)
  {
    hide BitAt, Twice, Plus;
  }

  lemma PartialIs(acc: bv32, x: bv32, y: bv32, k: nat)
    requires k <= 16
    ensures Partial(acc, x, y, k) <==> Low16(acc) == Product(Low16(x)[..k], Low16(y))
  {
    hide Low16, Product;
  }

  lemma TurnIs(acc: bv32, x: bv32, y: bv32, k: nat, place: bv32)
    requires k < 16 && Partial(acc, x, y, k) && place < 16 && place == Place(15 - k)
    ensures Partial(Turn(acc, x, y, place), x, y, k + 1)
  {
    hide *;
    PartialIs(acc, x, y, k);
    NextCoefficient(x, k);
    TwiceIsStep(acc);
    Low16Xor(Twice(acc), y);
    SameBit(x, 15 - k, place);
    ProductSnoc(Low16(x)[..k], Bit(x, 15 - k), Low16(y));
    TurnCases(acc, x, y, place);
    PartialIs(Turn(acc, x, y, place), x, y, k + 1);
  }

  lemma FourIs(acc: bv32, x: bv32, y: bv32, k: nat, place: bv32)
    requires k <= 12 && Partial(acc, x, y, k) && 3 <= place < 16
    requires place == Place(15 - k) && place - 1 == Place(14 - k) && place - 2 == Place(13 - k) && place - 3 == Place(12 - k)
    ensures Partial(Four(acc, x, y, place), x, y, k + 4)
  {
    hide Partial, Turn, Place;
    TurnIs(acc, x, y, k, place);
    TurnIs(Turn(acc, x, y, place), x, y, k + 1, place - 1);
    TurnIs(Turn(Turn(acc, x, y, place), x, y, place - 1), x, y, k + 2, place - 2);
    TurnIs(Turn(Turn(Turn(acc, x, y, place), x, y, place - 1), x, y, place - 2), x, y, k + 3, place - 3);
  }

  lemma NothingYet(x: bv32, y: bv32)
    ensures Partial(0, x, y, 0)
  {
    EmptyRegister();
  }

  lemma TimesIsProduct(x: bv32, y: bv32)
    ensures Low16(Times(x, y)) == Product(Low16(x), Low16(y))
  {
    NothingYet(x, y);
    hide Partial, Four, Low16;
    FourIs(0, x, y, 0, 15);
    FourIs(Four(0, x, y, 15), x, y, 4, 11);
    FourIs(Four(Four(0, x, y, 15), x, y, 11), x, y, 8, 7);
    FourIs(Four(Four(Four(0, x, y, 15), x, y, 11), x, y, 7), x, y, 12, 3);
    WholeProduct(Times(x, y), x, y);
  }

  lemma WholeProduct(acc: bv32, x: bv32, y: bv32)
    requires Partial(acc, x, y, 16)
    ensures Low16(acc) == Product(Low16(x), Low16(y))
  {
    assert Low16(x)[..16] == Low16(x);
  }

  /** `x` holds the coefficients of x^n. */
  ghost predicate IsPower(x: bv32, n: nat) {
    Low16(x) == Power(n)
  }

  lemma PowersMultiply(x: bv32, m: nat, y: bv32, n: nat)
    requires IsPower(x, m) && IsPower(y, n)
    ensures IsPower(Times(x, y), m + n)
  {
    TimesIsProduct(x, y);
    PowerProduct(m, n);
    hide Times, Low16, Product, Power;
  }

  lemma Next(x: bv32, m: nat, y: bv32, n: nat, z: bv32)
    requires IsPower(x, m) && IsPower(y, n) && z == Times(x, y)
    ensures IsPower(z, m + n)
  {
    PowersMultiply(x, m, y, n);
    hide *;
  }

  lemma FirstPower()
    ensures IsPower(0x0002, 1)
  {
    TwiceIsStep(1);
    LowOne();
    PowerNext(One(), 0);
    assert Zeros(0) == [];
    assert Twice(1) == 2;
    hide Twice, Low16, Step;
  }

  lemma LowOne()
    ensures Low16(1) == One()
  {
    forall i | 0 <= i < 16
      ensures Low16(1)[i] == One()[i]
    {
      assert Bit(1, 15 - i) == (i == 15);
    }
  }

  lemma Products1()
    ensures Times(0x0002, 0x0002) == 0x0004
    ensures Times(0x0004, 0x0004) == 0x0010
  {
  }

  lemma Products2()
    ensures Times(0x0010, 0x0010) == 0x0100
    ensures Times(0x0100, 0x0100) == 0x1021
  {
  }

  lemma Products3()
    ensures Times(0x1021, 0x1021) == 0x3730
    ensures Times(0x3730, 0x3730) == 0xb861
  {
  }

  lemma Products4()
    ensures Times(0xb861, 0xb861) == 0xaefc
    ensures Times(0xaefc, 0xaefc) == 0x8e29
  {
  }

  lemma Products5()
    ensures Times(0x8e29, 0x8e29) == 0x13fc
    ensures Times(0x13fc, 0x13fc) == 0x36c4
  {
  }

  lemma Products6()
    ensures Times(0x36c4, 0x36c4) == 0xfd50
    ensures Times(0xfd50, 0xfd50) == 0xaa9e
  {
  }

  lemma Products7()
    ensures Times(0xaefc, 0xb861) == 0x650b
    ensures Times(0x650b, 0x1021) == 0x45b4
  {
  }

  lemma Products8()
    ensures Times(0x45b4, 0x0100) == 0xac61
    ensures Times(0xac61, 0x0002) == 0x48e3
  {
  }

  lemma Products9()
    ensures Times(0x36c4, 0x3730) == 0xf147
    ensures Times(0xf147, 0x0002) == 0xf2af
  {
  }

  lemma Products10()
    ensures Times(0xaa9e, 0x13fc) == 0x54a0
    ensures Times(0x54a0, 0xb861) == 0x0106
  {
  }

  lemma Products11()
    ensures Times(0x0106, 0x0100) == 0x1621
    ensures Times(0x1621, 0x0002) == 0x2c42
  {
  }

  lemma Products12()
    ensures Times(0x2c42, 0x2c42) == 0x8635
    ensures Times(0x8635, 0x8635) == 0x5a68
  {
  }

  lemma Products13()
    ensures Times(0x5a68, 0x8635) == 0x762b
    ensures Times(0x762b, 0x2c42) == 0x0001
  {
  }

  /** x^217, x^1057, x^4681 and x^32767: the last is 1, the others are not. */
  lemma FourPowers()
    ensures IsPower(0x48e3, 217) && IsPower(0xf2af, 1057) && IsPower(0x2c42, 4681) && IsPower(0x0001, 32767)
  {
    hide *;
    FirstPower();
    Products1();
    Products2();
    Products3();
    Products4();
    Products5();
    Products6();
    Products7();
    Products8();
    Products9();
    Products10();
    Products11();
    Products12();
    Products13();
    Next(0x0002, 1, 0x0002, 1, 0x0004);
    Next(0x0004, 2, 0x0004, 2, 0x0010);
    Next(0x0010, 4, 0x0010, 4, 0x0100);
    Next(0x0100, 8, 0x0100, 8, 0x1021);
    Next(0x1021, 16, 0x1021, 16, 0x3730);
    Next(0x3730, 32, 0x3730, 32, 0xb861);
    Next(0xb861, 64, 0xb861, 64, 0xaefc);
    Next(0xaefc, 128, 0xaefc, 128, 0x8e29);
    Next(0x8e29, 256, 0x8e29, 256, 0x13fc);
    Next(0x13fc, 512, 0x13fc, 512, 0x36c4);
    Next(0x36c4, 1024, 0x36c4, 1024, 0xfd50);
    Next(0xfd50, 2048, 0xfd50, 2048, 0xaa9e);
    Next(0xaefc, 128, 0xb861, 64, 0x650b);
    Next(0x650b, 192, 0x1021, 16, 0x45b4);
    Next(0x45b4, 208, 0x0100, 8, 0xac61);
    Next(0xac61, 216, 0x0002, 1, 0x48e3);
    Next(0x36c4, 1024, 0x3730, 32, 0xf147);
    Next(0xf147, 1056, 0x0002, 1, 0xf2af);
    Next(0xaa9e, 4096, 0x13fc, 512, 0x54a0);
    Next(0x54a0, 4608, 0xb861, 64, 0x0106);
    Next(0x0106, 4672, 0x0100, 8, 0x1621);
    Next(0x1621, 4680, 0x0002, 1, 0x2c42);
    Next(0x2c42, 4681, 0x2c42, 4681, 0x8635);
    Next(0x8635, 9362, 0x8635, 9362, 0x5a68);
    Next(0x5a68, 18724, 0x8635, 9362, 0x762b);
    Next(0x762b, 28086, 0x2c42, 4681, 0x0001);
  }

  // ------------------------------------------------------------------ the order of x

  ghost predicate Cycle(n: nat) {
    Power(n) == One()
  }

  lemma NotOne(x: bv32, n: nat)
    requires IsPower(x, n) && Bit(x, 1)
    ensures !Cycle(n)
  {
    assert Low16(x)[14];
    hide Low16, Power;
  }

  lemma KnownCycles()
    ensures Cycle(ORDER) && !Cycle(217) && !Cycle(1057) && !Cycle(4681)
  {
    FourPowers();
    LowOne();
    assert Bit(0x48e3, 1) && Bit(0xf2af, 1) && Bit(0x2c42, 1);
    hide Bit, Low16, Power;
    NotOne(0x48e3, 217);
    NotOne(0xf2af, 1057);
    NotOne(0x2c42, 4681);
  }

  lemma CycleSum(m: nat, n: nat)
    requires Cycle(m)
    ensures Cycle(m + n) <==> Cycle(n)
  {
    PowerSum(One(), m, n);
  }

  lemma {:induction false} CycleTimes(n: nat, k: nat)
    requires Cycle(n)
    ensures Cycle(k * n)
    decreases k
  {
    hide *;
    if k == 0 {
      CycleZero();
      assert 0 * n == 0;
    } else {
      CycleTimes(n, k - 1);
      CycleSum((k - 1) * n, n);
      assert (k - 1) * n + n == k * n;
    }
  }

  lemma CycleZero()
    ensures Cycle(0)
  {
    assert Zeros(0) == [];
  }

  lemma CycleMod(n: nat, d: nat)
    requires d > 0 && Cycle(d)
    ensures Cycle(n % d) <==> Cycle(n)
  {
    hide *;
    CycleTimes(d, n / d);
    CycleSum(n / d * d, n % d);
    assert n == n / d * d + n % d;
  }

  predicate DivisibleBy(n: nat, k: nat)
    requires k > 0
  {
    n % k == 0
  }

  predicate Prime(p: nat) {
    p >= 2 && forall k :: 2 <= k < p ==> !DivisibleBy(p, k)
  }

  lemma SmallFactor(p: nat, k: nat) returns (m: nat)
    requires p < 169 && 2 <= k < p && p % k == 0
    ensures k * m == p && m >= 2 && (k <= 12 || m <= 12)
  {
    m := p / k;
    Quotient(p, k);
    if k >= 13 && m >= 13 {
      hide *;
      ProductRises(13, m, k);
    }
  }

  lemma Quotient(p: nat, k: nat)
    requires 2 <= k < p && p % k == 0
    ensures k * (p / k) == p && p / k >= 2
  {
    QuotientBounds(p, k);
    if p / k < 2 {
      ProductRises(p / k, 1, k);
    }
  }

  lemma NoFactor(p: nat, small: nat, other: nat)
    requires p == 7 || p == 31 || p == 151
    requires 2 <= small <= 12 && other >= 2 && small < p && other < p
    ensures small * other != p
  {
    var cases := small == 2 || small == 3 || small == 4 || small == 5 || small == 6 || small == 7 || small == 8 ||
                 small == 9 || small == 10 || small == 11 || small == 12;
    assert cases;
  }

  lemma Primes(p: nat)
    requires p == 7 || p == 31 || p == 151
    ensures Prime(p)
  {
    forall k | 2 <= k < p
      ensures !DivisibleBy(p, k)
    {
      if p % k == 0 {
        var m := SmallFactor(p, k);
        if k <= 12 {
          NoFactor(p, k, m);
        } else {
          NoFactor(p, m, k);
        }
      }
    }
  }

  lemma ProductOfSplit(c: nat, n: nat, k: nat)
    requires k > 0
    ensures c * n == (n / k) * (c * k) + c * (n % k)
  {
    assert n == (n / k) * k + n % k;
    assert c * ((n / k) * k) == (n / k) * (c * k);
  }

  /** If c is no cycle but c * n is, for n the number k and a modulus, then so is c times the remainder. */
  lemma CycleRest(c: nat, n: nat, k: nat)
    requires k > 0 && Cycle(c * k)
    ensures Cycle(c * n) <==> Cycle(c * (n % k))
  {
    hide *;
    CycleTimes(c * k, n / k);
    ProductOfSplit(c, n, k);
    CycleSum((n / k) * (c * k), c * (n % k));
  }

  lemma {:induction false} PrimeCycle(c: nat, p: nat, k: nat)
    requires Prime(p) && Cycle(c * p) && !Cycle(c) && 0 < k < p
    ensures !Cycle(c * k)
    decreases k
  {
    hide Cycle;
    if k == 1 {
    } else if Cycle(c * k) {
      assert !DivisibleBy(p, k);
      CycleRest(c, p, k);
      PrimeCycle(c, p, p % k);
    }
  }

  /** A cycle is a multiple of every prime p for which ORDER / p is none. */
  lemma CycleHasFactor(c: nat, p: nat, d: nat)
    requires p > 0 && Prime(p) && Cycle(c * p) && !Cycle(c) && Cycle(d)
    ensures d % p == 0
  {
    hide Cycle, Prime;
    CycleTimes(d, c);
    CycleRest(c, d, p);
    if d % p > 0 {
      PrimeCycle(c, p, d % p);
    }
  }

  lemma FactorsMeet(d: nat, a: nat, m: nat, n: nat)
    requires d == 7 * a && d == 31 * m && d == 151 * n
    ensures d == 32767 * (135 * n - 194 * (9 * m - 2 * a))
  {
  }

  lemma MultipleOfOrder(d: nat, k: int)
    requires d == 32767 * k
    ensures d % 32767 == 0
  {
  }

  lemma AllFactors(d: nat)
    requires d % 7 == 0 && d % 31 == 0 && d % 151 == 0
    ensures d % 32767 == 0
  {
    var a, m, n := d / 7, d / 31, d / 151;
    FactorsMeet(d, a, m, n);
    MultipleOfOrder(d, 135 * n - 194 * (9 * m - 2 * a));
  }

  /** x has order 32767 modulo the generator. */
  lemma CycleIff(n: nat)
    ensures Cycle(n) <==> n % ORDER == 0
  {
    KnownCycles();
    CycleZero();
    CycleMod(n, ORDER);
    Primes(7);
    Primes(31);
    Primes(151);
    hide Cycle, Prime;
    if Cycle(n) {
      CycleHasFactor(4681, 7, n);
      CycleHasFactor(1057, 31, n);
      CycleHasFactor(217, 151, n);
      AllFactors(n);
    }
  }

  // ------------------------------------------------------------------ errors of few bits

  predicate TwoOnes(d: Bits, i: nat, j: nat) {
    i < j < |d| && forall k :: 0 <= k < |d| ==> (d[k] <==> k == i || k == j)
  }

  lemma TwoOnesApart(d: Bits, i: nat, j: nat)
    requires TwoOnes(d, i, j)
    ensures d + Zeros(16) == Zeros(i) + [true] + Zeros(j - i - 1) + [true] + Zeros(|d| - j - 1 + 16)
  {
  }

  lemma FirstOne(i: nat)
    ensures Run(ZERO, Zeros(i) + [true]) == One()
  {
    ZeroRunIsInjective(ZERO, i);
    RunSnoc(ZERO, Zeros(i), true);
    StepOne(ZERO);
    assert Step(ZERO, false) == ZERO;
    assert Xor(ZERO, One()) == One();
  }

  lemma SecondOne(n: nat)
    ensures Run(One(), Zeros(n) + [true]) == Xor(Power(n + 1), One())
  {
    RunSnoc(One(), Zeros(n), true);
    StepOne(Power(n));
    PowerNext(One(), n);
  }

  /** Two one bits leave remainder zero exactly when their distance is a multiple of the order. */
  lemma TwoOnesRemainder(d: Bits, i: nat, j: nat)
    requires TwoOnes(d, i, j)
    ensures Run(ZERO, d + Zeros(16)) == ZERO <==> (j - i) % ORDER == 0
  {
    var head, middle, rest := Zeros(i) + [true], Zeros(j - i - 1) + [true], |d| - j - 1 + 16;
    TwoOnesApart(d, i, j);
    Associative(head, Zeros(j - i - 1), [true]);
    FirstOne(i);
    SecondOne(j - i - 1);
    CycleIff(j - i);
    XorZeroIffEqual(Power(j - i), One());
    hide Run, Power, Xor;
    RunAppend(ZERO, head + middle, Zeros(rest));
    RunAppend(ZERO, head, middle);
    ZeroRunIsInjective(Xor(Power(j - i), One()), rest);
  }

  /** The bits in which two octet strings of the same length differ. */
  function Difference(a: seq<byte>, b: seq<byte>): (d: Bits)
    requires |a| == |b|
    ensures |d| == 8 * |a|
  {
    Xor(BitsOf(a), BitsOf(b))
  }

  lemma SameCrcIff(a: seq<byte>, b: seq<byte>)
    requires |a| == |b|
    ensures Crc(a) == Crc(b) <==> Run(ZERO, Difference(a, b) + Zeros(16)) == ZERO
  {
    CrcOfDifference(a, b);
    XorZeroIffEqual(Crc(a), Crc(b));
    hide Run, Crc, BitsOf;
  }

  /** For messages of every length: two flipped bits go unnoticed exactly when 32767 divides their distance. */
  lemma TwoBitErrorUnseenIff(a: seq<byte>, b: seq<byte>, i: nat, j: nat)
    requires |a| == |b| && TwoOnes(Difference(a, b), i, j)
    ensures Crc(a) == Crc(b) <==> (j - i) % ORDER == 0
  {
    hide Difference, Crc;
    SameCrcIff(a, b);
    TwoOnesRemainder(Difference(a, b), i, j);
  }

  lemma {:induction false} PositionsOfOnes(d: Bits) returns (i: nat, j: nat)
    requires 1 <= Ones(d) <= 2
    ensures Ones(d) == 1 ==> i < |d| && forall k :: 0 <= k < |d| ==> (d[k] <==> k == i)
    ensures Ones(d) == 2 ==> TwoOnes(d, i, j)
    decreases |d|
  {
    i, j := 0, 0;
    var rest := d[1..];
    if !d[0] {
      i, j := PositionsOfOnes(rest);
      i, j := i + 1, j + 1;
      assert forall k :: 1 <= k < |d| ==> d[k] == rest[k - 1];
    } else if Ones(d) == 2 {
      j, i := PositionsOfOnes(rest);
      i, j := 0, j + 1;
      assert forall k :: 1 <= k < |d| ==> d[k] == rest[k - 1];
    } else {
      NoOnes(rest);
      assert forall k :: 1 <= k < |d| ==> d[k] == rest[k - 1];
    }
  }

  lemma {:induction false} NoOnes(d: Bits)
    requires Ones(d) == 0
    ensures forall k :: 0 <= k < |d| ==> !d[k]
    decreases |d|
  {
    if d == [] {
    } else {
      NoOnes(d[1..]);
      assert forall k :: 1 <= k < |d| ==> d[k] == d[1..][k - 1];
    }
  }

  lemma Unlike(a: seq<byte>, b: seq<byte>, i: nat, j: nat)
    requires |a| == |b| && TwoOnes(Difference(a, b), i, j) && j - i < ORDER
    ensures Crc(a) != Crc(b)
  {
    TwoBitErrorUnseenIff(a, b, i, j);
    assert (j - i) % ORDER == j - i;
  }

  /** One, two or three flipped bits, in payload or trailer, never pass the check of a block of up to 4095 octets. */
  lemma SmallErrorIsRejected(payload: seq<byte>, received: seq<byte>)
    requires |received| == |payload| + 2 && |received| <= 4095
    requires 1 <= Ones(Difference(received, payload + Trailer(payload))) <= 3
    ensures !TrailerMatches(received)
  {
    var sent := payload + Trailer(payload);
    var n := Ones(Difference(received, sent));
    if n == 2 {
      var i, j := PositionsOfOnes(Difference(received, sent));
      SentBlockMatches(payload);
      hide TrailerMatches, Crc, Difference, Ones, TwoOnes;
      SpanInBlock(Difference(received, sent), i, j);
      Unlike(received, sent, i, j);
      TrailerMatchesIffResidueZero(sent);
      TrailerMatchesIffResidueZero(received);
    } else {
      OddErrorIsRejected(payload, received);
    }
  }

  lemma SpanInBlock(d: Bits, i: nat, j: nat)
    requires TwoOnes(d, i, j) && |d| <= 8 * 4095
    ensures j - i < ORDER
  {
  }

  /** The bits of the generator. */
  function Generator(): (g: Bits)
    ensures |g| == 17
  {
    [true] + Taps()
  }

  lemma GeneratorOnes()
    ensures Ones(Generator()) == 4
  {
    OnesTaps();
    assert Generator()[1..] == Taps();
    hide Taps;
  }

  lemma GeneratorLeavesNothing()
    ensures Run(ZERO, Generator()) == ZERO
  {
    var g := Generator();
    ShiftIn(g[..16]);
    RunSnoc(ZERO, g[..16], g[16]);
    assert g == g[..16] + [g[16]];
    assert Zeros(0) + g[..16] == g[..16];
    forall i | 0 <= i < 16
      ensures !Step(g[..16], g[16])[i]
    {
      StepAt(g[..16], g[16], i);
    }
  }

  /** Three is best possible: four flipped bits in the pattern of the generator pass, wherever they are. */
  lemma GeneratorErrorPasses(payload: seq<byte>, received: seq<byte>, start: nat)
    requires |received| == |payload| + 2 && start + 17 <= 8 * |received|
    requires Difference(received, payload + Trailer(payload)) ==
             Zeros(start) + Generator() + Zeros(8 * |received| - start - 17)
    ensures TrailerMatches(received) && Ones(Difference(received, payload + Trailer(payload))) == 4
  {
    var sent, rest := payload + Trailer(payload), 8 * |received| - start - 17;
    PatternOnes(start, rest);
    PatternLeavesNothing(start, rest + 16);
    PatternPadded(start, rest);
    hide *;
    SentBlockMatches(payload);
    TrailerMatchesIffResidueZero(sent);
    TrailerMatchesIffResidueZero(received);
    SameCrcIff(received, sent);
  }

  lemma PatternPadded(start: nat, rest: nat)
    ensures Zeros(start) + Generator() + Zeros(rest) + Zeros(16) == Zeros(start) + Generator() + Zeros(rest + 16)
  {
    assert Zeros(rest) + Zeros(16) == Zeros(rest + 16);
    Associative(Zeros(start) + Generator(), Zeros(rest), Zeros(16));
  }

  lemma PatternOnes(start: nat, rest: nat)
    ensures Ones(Zeros(start) + Generator() + Zeros(rest)) == 4
  {
    GeneratorOnes();
    OnesAppend(Zeros(start) + Generator(), Zeros(rest));
    OnesAppend(Zeros(start), Generator());
    OnesZeros(start);
    OnesZeros(rest);
  }

  lemma PatternLeavesNothing(start: nat, rest: nat)
    ensures Run(ZERO, Zeros(start) + Generator() + Zeros(rest)) == ZERO
  {
    hide Generator;
    GeneratorLeavesNothing();
    ZeroRunIsInjective(ZERO, start);
    ZeroRunIsInjective(ZERO, rest);
    RunAppend(ZERO, Zeros(start) + Generator(), Zeros(rest));
    RunAppend(ZERO, Zeros(start), Generator());
  }
}
