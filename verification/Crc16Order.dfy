/** Two wrong bits: the polynomial of usb_crc16 has order 32767. */
module Crc16Order {
  import opened Bits
  import opened Crc16

  /** n rounds with zero message bits. */
  function Advance(a: Register, n: nat): Register
    decreases n
  {
    if n == 0 then a else Advance(Step(a, false), n - 1)
  }

  function Unit(): Register { OneHot(16, 0) }

  /** The register after n rounds from 1, that is, x^n modulo the polynomial. */
  function Power(n: nat): Register { Advance(Unit(), n) }

  lemma {:induction false} AdvanceAdd(a: Register, m: nat, n: nat)
    ensures Advance(a, m + n) == Advance(Advance(a, m), n)
    decreases m
  {
    if m > 0 {
      AdvanceAdd(Step(a, false), m - 1, n);
    }
  }

  lemma {:induction false} AdvanceLinear(a: Register, b: Register, n: nat)
    ensures Advance(Xor(a, b), n) == Xor(Advance(a, n), Advance(b, n))
    decreases n
  {
    if n > 0 {
      StepLinear(a, b, false, false);
      AdvanceLinear(Step(a, false), Step(b, false), n - 1);
    }
  }

  lemma {:induction false} AdvanceIsRun(a: Register, n: nat)
    ensures Advance(a, n) == Run(a, Zeros(n))
    decreases n
  {
    if n > 0 {
      assert Zeros(n)[1..] == Zeros(n - 1);
      AdvanceIsRun(Step(a, false), n - 1);
    }
  }

  lemma AdvanceInjective(a: Register, b: Register, n: nat)
    requires Advance(a, n) == Advance(b, n)
    ensures a == b
  {
    AdvanceLinear(a, b, n);
    AdvanceIsRun(Xor(a, b), n);
    EqualByXor(Advance(a, n), Advance(b, n));
    ZerosKeepNonZero(Xor(a, b), n);
    EqualByXor(a, b);
  }

  // ---------------------------------------------------------------- products

  /** The sum of the registers v, x v, x^2 v, ... selected by a: the product of polynomials a and v. */
  function Times(a: Bits, v: Register): Register
    decreases |a|
  {
    if a == [] then Zeros(16) else XorIf(Times(a[1..], Step(v, false)), a[0], v)
  }

  lemma {:induction false} TimesAdvance(a: Bits, v: Register, n: nat)
    ensures Advance(Times(a, v), n) == Times(a, Advance(v, n))
    decreases |a|
  {
    if a == [] {
      AdvanceIsRun(Zeros(16), n);
      ZerosStay(n);
    } else {
      TimesAdvance(a[1..], Step(v, false), n);
      AdvanceAdd(v, 1, n);
      AdvanceAdd(v, n, 1);
      assert Advance(v, 1) == Step(v, false);
      assert Advance(Advance(v, n), 1) == Step(Advance(v, n), false);
      if a[0] {
        AdvanceLinear(Times(a[1..], Step(v, false)), v, n);
      }
    }
  }

  lemma {:induction false} TimesUnit(a: Bits, k: nat)
    requires k < 16 && |a| == 16 - k
    ensures Times(a, OneHot(16, k)) == Zeros(k) + a
    decreases |a|
  {
    if k == 15 {
      assert a[1..] == [];
      assert XorIf(Zeros(16), a[0], OneHot(16, 15)) == Zeros(15) + a;
    } else {
      assert Step(OneHot(16, k), false) == OneHot(16, k + 1);
      TimesUnit(a[1..], k + 1);
      assert XorIf(Zeros(k + 1) + a[1..], a[0], OneHot(16, k)) == Zeros(k) + a;
    }
  }

  /** Advancing by n multiplies by x^n. */
  lemma AdvanceIsTimes(a: Register, n: nat)
    ensures Advance(a, n) == Times(a, Power(n))
  {
    TimesUnit(a, 0);
    assert Zeros(0) + a == a;
    TimesAdvance(a, Unit(), n);
  }

  lemma PowerAdd(m: nat, n: nat)
    ensures Power(m + n) == Times(Power(m), Power(n))
  {
    AdvanceAdd(Unit(), m, n);
    AdvanceIsTimes(Power(m), n);
  }

  // ---------------------------------------------------------------- computing powers on machine words

  const WIDTH: nat := 16

  /** The lowest n bits of a machine word. */
  function Lowest(x: bv16, n: nat): (r: Bits)
    ensures |r| == n
    decreases n
  {
    if n == 0 then [] else [x & 1 == 1] + Lowest(x >> 1, n - 1)
  }

  function Word(x: bv16): Register { Lowest(x, WIDTH) }

  lemma HalvesOfXor(x: bv16, y: bv16, z: bv16, x1: bv16, y1: bv16, z1: bv16)
    requires z == x ^ y && x1 == x >> 1 && y1 == y >> 1 && z1 == z >> 1
    ensures z & 1 == 1 <==> ((x & 1 == 1) != (y & 1 == 1))
    ensures z1 == x1 ^ y1
  {
  }

  lemma Unfold(x: bv16, x1: bv16, n: nat)
    requires n > 0 && x1 == x >> 1
    ensures Lowest(x, n) == [x & 1 == 1] + Lowest(x1, n - 1)
  {
  }

  lemma {:induction false} WordOfXor(x: bv16, y: bv16, z: bv16, n: nat)
    requires z == x ^ y
    ensures Lowest(z, n) == Xor(Lowest(x, n), Lowest(y, n))
    decreases n
  {
    if n > 0 {
      var x1, y1, z1 := x >> 1, y >> 1, z >> 1;
      HalvesOfXor(x, y, z, x1, y1, z1);
      WordOfXor(x1, y1, z1, n - 1);
      Unfold(x, x1, n);
      Unfold(y, y1, n);
      Unfold(z, z1, n);
    }
  }

  /** The n lowest bits of m are set. */
  predicate Mask(m: bv16, n: nat)
    decreases n
  {
    n == 0 || (m & 1 == 1 && Mask(m >> 1, n - 1))
  }

  lemma HalvesUnderMask(x: bv16, y: bv16, m: bv16)
    requires x & m == y & m && m & 1 == 1
    ensures x & 1 == y & 1 && (x >> 1) & (m >> 1) == (y >> 1) & (m >> 1)
  {
  }

  lemma {:induction false} SameUnderMask(x: bv16, y: bv16, m: bv16, n: nat)
    requires x & m == y & m && Mask(m, n)
    ensures Lowest(x, n) == Lowest(y, n)
    decreases n
  {
    if n > 0 {
      HalvesUnderMask(x, y, m);
      SameUnderMask(x >> 1, y >> 1, m >> 1, n - 1);
    }
  }

  /** Of the n lowest bits, m has only the highest. */
  predicate TopOnly(m: bv16, n: nat)
    decreases n
  {
    if n <= 1 then n == 1 && m == 1 else m & 1 == 0 && TopOnly(m >> 1, n - 1)
  }

  lemma HalvesOfTest(x: bv16, m: bv16)
    requires m & 1 == 0
    ensures x & m != 0 <==> (x >> 1) & (m >> 1) != 0
  {
  }

  lemma {:induction false} TopBit(x: bv16, m: bv16, n: nat)
    requires n > 0 && TopOnly(m, n)
    ensures Lowest(x, n)[n - 1] <==> x & m != 0
    decreases n
  {
    if n > 1 {
      HalvesOfTest(x, m);
      TopBit(x >> 1, m >> 1, n - 1);
      assert Lowest(x, n)[n - 1] == Lowest(x >> 1, n - 1)[n - 2];
    }
  }

  lemma {:induction false} LowestPrefix(x: bv16, n: nat, k: nat)
    requires k <= n
    ensures Lowest(x, n)[..k] == Lowest(x, k)
    decreases n
  {
    if k > 0 {
      LowestPrefix(x >> 1, n - 1, k - 1);
    }
  }

  lemma Constants()
    ensures Mask(0x7fff, 15) && TopOnly(0x8000, 16)
  {
    assert Mask(0x0007, 3);
    assert Mask(0x003f, 6);
    assert Mask(0x01ff, 9);
    assert Mask(0x0fff, 12);
    assert TopOnly(0x0008, 4);
    assert TopOnly(0x0080, 8);
    assert TopOnly(0x0800, 12);
  }

  function Double(x: bv16): bv16 { if x & 0x8000 != 0 then (x << 1) ^ 0x8005 else x << 1 }

  lemma HalfOfLeft(x: bv16, y: bv16, y1: bv16)
    requires y == x << 1 && y1 == y >> 1
    ensures y & 1 == 0 && y1 & 0x7fff == x & 0x7fff
  {
  }

  lemma TailOfLeft(x: bv16, y: bv16, y1: bv16)
    requires y == x << 1 && y1 == y >> 1
    ensures Lowest(y1, 15) == Lowest(x, 15) && y & 1 == 0
  {
    Constants();
    HalfOfLeft(x, y, y1);
    SameUnderMask(y1, x, 0x7fff, 15);
  }

  lemma WordOfLeft(x: bv16, y: bv16)
    requires y == x << 1
    ensures Word(y) == [false] + Word(x)[..15]
  {
    var y1 := y >> 1;
    TailOfLeft(x, y, y1);
    LowestPrefix(x, WIDTH, 15);
    Unfold(y, y1, WIDTH);
  }

  lemma WordOfPoly()
    ensures Word(0x8005) == Poly()
  {
    assert Lowest(0x0008, 4) == [false, false, false, true];
    assert Lowest(0x0080, 8) == [false, false, false, false] + Lowest(0x0008, 4);
    assert Lowest(0x0800, 12) == [false, false, false, false] + Lowest(0x0080, 8);
    assert Lowest(0x8005, 16) == [true, false, true, false] + Lowest(0x0800, 12);
  }

  lemma WordOfDouble(x: bv16)
    ensures Word(Double(x)) == Step(Word(x), false)
  {
    var y := x << 1;
    WordOfLeft(x, y);
    Constants();
    TopBit(x, 0x8000, WIDTH);
    if x & 0x8000 != 0 {
      WordOfPoly();
      WordOfXor(y, 0x8005, Double(x), WIDTH);
    }
  }

  /** The product of the n lowest coefficients of a with v. */
  function Product(a: bv16, v: bv16, n: nat): bv16
    decreases n
  {
    if n == 0 then 0
    else if a & 1 == 1 then Product(a >> 1, Double(v), n - 1) ^ v
    else Product(a >> 1, Double(v), n - 1)
  }

  lemma {:induction false} ZeroWord(n: nat)
    ensures Lowest(0, n) == Zeros(n)
    decreases n
  {
    if n > 0 {
      assert (0 as bv16) >> 1 == 0;
      ZeroWord(n - 1);
    }
  }

  lemma TimesUnfold(a: bv16, a1: bv16, v: Register, n: nat)
    requires n > 0 && a1 == a >> 1
    ensures Times(Lowest(a, n), v) == XorIf(Times(Lowest(a1, n - 1), Step(v, false)), a & 1 == 1, v)
  {
    Unfold(a, a1, n);
    assert ([a & 1 == 1] + Lowest(a1, n - 1))[1..] == Lowest(a1, n - 1);
  }

  lemma ProductUnfold(a: bv16, a1: bv16, v: bv16, w: bv16, n: nat, p: bv16)
    requires n > 0 && a1 == a >> 1 && w == Double(v) && p == Product(a1, w, n - 1)
    ensures Product(a, v, n) == if a & 1 == 1 then p ^ v else p
  {
  }

  lemma WordOfXorIf(p: bv16, v: bv16, odd: bool, z: bv16)
    requires z == if odd then p ^ v else p
    ensures Word(z) == XorIf(Word(p), odd, Word(v))
  {
    if odd {
      WordOfXor(p, v, z, WIDTH);
    }
  }

  lemma ProductStep(a: bv16, a1: bv16, v: bv16, w: bv16, n: nat, p: bv16)
    requires n > 0 && a1 == a >> 1 && w == Double(v) && p == Product(a1, w, n - 1)
    ensures Word(Product(a, v, n)) == XorIf(Word(p), a & 1 == 1, Word(v))
  {
    ProductUnfold(a, a1, v, w, n, p);
    WordOfXorIf(p, v, a & 1 == 1, Product(a, v, n));
  }

  lemma TimesStep(a: bv16, a1: bv16, v: bv16, w: bv16, n: nat)
    requires n > 0 && a1 == a >> 1 && w == Double(v)
    ensures Times(Lowest(a, n), Word(v)) == XorIf(Times(Lowest(a1, n - 1), Word(w)), a & 1 == 1, Word(v))
  {
    TimesUnfold(a, a1, Word(v), n);
    WordOfDouble(v);
  }

  lemma ProductOn(a: bv16, a1: bv16, v: bv16, w: bv16, n: nat)
    requires n > 0 && a1 == a >> 1 && w == Double(v)
    requires Word(Product(a1, w, n - 1)) == Times(Lowest(a1, n - 1), Word(w))
    ensures Word(Product(a, v, n)) == Times(Lowest(a, n), Word(v))
  {
    ProductStep(a, a1, v, w, n, Product(a1, w, n - 1));
    TimesStep(a, a1, v, w, n);
  }

  lemma ProductNone(a: bv16, v: bv16)
    ensures Word(Product(a, v, 0)) == Times(Lowest(a, 0), Word(v))
  {
    ZeroWord(WIDTH);
  }

  lemma {:induction false} WordOfProduct(a: bv16, v: bv16, n: nat)
    ensures Word(Product(a, v, n)) == Times(Lowest(a, n), Word(v))
    decreases n
  {
    if n == 0 {
      ProductNone(a, v);
    } else {
      WordOfProduct(a >> 1, Double(v), n - 1);
      ProductOn(a, a >> 1, v, Double(v), n);
    }
  }

  /** The word x is x^n. */
  predicate IsPower(n: nat, x: bv16) { Power(n) == Word(x) }

  lemma Next(n: nat, x: bv16)
    requires IsPower(n, x)
    ensures IsPower(n + 1, Double(x))
  {
    AdvanceAdd(Unit(), n, 1);
    assert Advance(Power(n), 1) == Step(Power(n), false);
    WordOfDouble(x);
  }

  lemma Multiply(m: nat, x: bv16, n: nat, y: bv16, z: bv16)
    requires IsPower(m, x) && IsPower(n, y) && z == Product(x, y, 16)
    ensures IsPower(m + n, z)
  {
    PowerAdd(m, n);
    WordOfProduct(x, y, WIDTH);
  }

  lemma UnitIsOne()
    ensures Unit() == Word(1)
  {
    ZeroWord(15);
    assert (1 as bv16) >> 1 == 0;
  }

  lemma PowerOne()
    ensures IsPower(1, 2)
  {
    UnitIsOne();
    WordOfDouble(1);
    assert Advance(Unit(), 1) == Step(Unit(), false);
  }

  lemma Product0002x0002()
    ensures Product(0x0002, 0x0002, 16) == 0x0004
  {
    assert Product(0x0000, 0x2000, 4) == 0x0000;
    assert Product(0x0000, 0x0200, 8) == 0x0000;
    assert Product(0x0000, 0x0020, 12) == 0x0000;
    assert Product(0x0002, 0x0002, 16) == 0x0004;
  }

  lemma Product0004x0004()
    ensures Product(0x0004, 0x0004, 16) == 0x0010
  {
    assert Product(0x0000, 0x4000, 4) == 0x0000;
    assert Product(0x0000, 0x0400, 8) == 0x0000;
    assert Product(0x0000, 0x0040, 12) == 0x0000;
    assert Product(0x0004, 0x0004, 16) == 0x0010;
  }

  lemma Product0010x0010()
    ensures Product(0x0010, 0x0010, 16) == 0x0100
  {
    assert Product(0x0000, 0x8005, 4) == 0x0000;
    assert Product(0x0000, 0x1000, 8) == 0x0000;
    assert Product(0x0001, 0x0100, 12) == 0x0100;
    assert Product(0x0010, 0x0010, 16) == 0x0100;
  }

  lemma Product0100x0100()
    ensures Product(0x0100, 0x0100, 16) == 0x8005
  {
    assert Product(0x0000, 0x8063, 4) == 0x0000;
    assert Product(0x0001, 0x8005, 8) == 0x8005;
    assert Product(0x0010, 0x1000, 12) == 0x8005;
    assert Product(0x0100, 0x0100, 16) == 0x8005;
  }

  lemma Product8005x8005()
    ensures Product(0x8005, 0x8005, 16) == 0x8017
  {
    assert Product(0x0008, 0xe003, 4) == 0x8009;
    assert Product(0x0080, 0x8603, 8) == 0x8009;
    assert Product(0x0800, 0x8063, 12) == 0x8009;
    assert Product(0x8005, 0x8005, 16) == 0x8017;
  }

  lemma Product8017x8017()
    ensures Product(0x8017, 0x8017, 16) == 0x8113
  {
    assert Product(0x0008, 0x4006, 4) == 0x803f;
    assert Product(0x0080, 0x9403, 8) == 0x803f;
    assert Product(0x0801, 0x8143, 12) == 0x017c;
    assert Product(0x8017, 0x8017, 16) == 0x8113;
  }

  lemma Product8113x8113()
    ensures Product(0x8113, 0x8113, 16) == 0x0106
  {
    assert Product(0x0008, 0x8065, 4) == 0x8333;
    assert Product(0x0081, 0x1006, 8) == 0x9335;
    assert Product(0x0811, 0x9103, 12) == 0x0236;
    assert Product(0x8113, 0x8113, 16) == 0x0106;
  }

  lemma Product0106x0106()
    ensures Product(0x0106, 0x0106, 16) == 0x8011
  {
    assert Product(0x0000, 0xe063, 4) == 0x0000;
    assert Product(0x0001, 0x8605, 8) == 0x8605;
    assert Product(0x0010, 0x1060, 12) == 0x8605;
    assert Product(0x0106, 0x0106, 16) == 0x8011;
  }

  lemma Product8011x8011()
    ensures Product(0x8011, 0x8011, 16) == 0x8107
  {
    assert Product(0x0008, 0x2006, 4) == 0x8035;
    assert Product(0x0080, 0x9203, 8) == 0x8035;
    assert Product(0x0801, 0x8123, 12) == 0x0116;
    assert Product(0x8011, 0x8011, 16) == 0x8107;
  }

  lemma Product8107x8107()
    ensures Product(0x8107, 0x8107, 16) == 0x0016
  {
    assert Product(0x0008, 0x4060, 4) == 0x830f;
    assert Product(0x0081, 0x0406, 8) == 0x8709;
    assert Product(0x0810, 0x9043, 12) == 0x8709;
    assert Product(0x8107, 0x8107, 16) == 0x0016;
  }

  lemma Product0016x0016()
    ensures Product(0x0016, 0x0016, 16) == 0x0114
  {
    assert Product(0x0000, 0xe005, 4) == 0x0000;
    assert Product(0x0000, 0x1600, 8) == 0x0000;
    assert Product(0x0001, 0x0160, 12) == 0x0160;
    assert Product(0x0016, 0x0016, 16) == 0x0114;
  }

  lemma Product0114x0114()
    ensures Product(0x0114, 0x0114, 16) == 0x8115
  {
    assert Product(0x0000, 0x4066, 4) == 0x0000;
    assert Product(0x0001, 0x9405, 8) == 0x9405;
    assert Product(0x0011, 0x1140, 12) == 0x8545;
    assert Product(0x0114, 0x0114, 16) == 0x8115;
  }

  lemma Product8115x8115()
    ensures Product(0x8115, 0x8115, 16) == 0x0112
  {
    assert Product(0x0008, 0xe065, 4) == 0x8339;
    assert Product(0x0081, 0x1606, 8) == 0x953f;
    assert Product(0x0811, 0x9163, 12) == 0x045c;
    assert Product(0x8115, 0x8115, 16) == 0x0112;
  }

  lemma Product0112x0112()
    ensures Product(0x0112, 0x0112, 16) == 0x8101
  {
    assert Product(0x0000, 0x2066, 4) == 0x0000;
    assert Product(0x0001, 0x9205, 8) == 0x9205;
    assert Product(0x0011, 0x1120, 12) == 0x8325;
    assert Product(0x0112, 0x0112, 16) == 0x8101;
  }

  lemma Product8101x8101()
    ensures Product(0x8101, 0x8101, 16) == 0x0002
  {
    assert Product(0x0008, 0x2060, 4) == 0x8305;
    assert Product(0x0081, 0x0206, 8) == 0x8103;
    assert Product(0x0810, 0x9023, 12) == 0x8103;
    assert Product(0x8101, 0x8101, 16) == 0x0002;
  }

  lemma Product0002x0100()
    ensures Product(0x0002, 0x0100, 16) == 0x0200
  {
    assert Product(0x0000, 0x8063, 4) == 0x0000;
    assert Product(0x0000, 0x8005, 8) == 0x0000;
    assert Product(0x0000, 0x1000, 12) == 0x0000;
    assert Product(0x0002, 0x0100, 16) == 0x0200;
  }

  lemma Product0200x8005()
    ensures Product(0x0200, 0x8005, 16) == 0x8c03
  {
    assert Product(0x0000, 0xe003, 4) == 0x0000;
    assert Product(0x0002, 0x8603, 8) == 0x8c03;
    assert Product(0x0020, 0x8063, 12) == 0x8c03;
    assert Product(0x0200, 0x8005, 16) == 0x8c03;
  }

  lemma Product8c03x8113()
    ensures Product(0x8c03, 0x8113, 16) == 0x402b
  {
    assert Product(0x0008, 0x8065, 4) == 0x8333;
    assert Product(0x008c, 0x1006, 8) == 0x431b;
    assert Product(0x08c0, 0x9103, 12) == 0x431b;
    assert Product(0x8c03, 0x8113, 16) == 0x402b;
  }

  lemma Product402bx0106()
    ensures Product(0x402b, 0x0106, 16) == 0xaa7c
  {
    assert Product(0x0004, 0xe063, 4) == 0x8186;
    assert Product(0x0040, 0x8605, 8) == 0x8186;
    assert Product(0x0402, 0x1060, 12) == 0xa146;
    assert Product(0x402b, 0x0106, 16) == 0xaa7c;
  }

  lemma Product0002x8017()
    ensures Product(0x0002, 0x8017, 16) == 0x802b
  {
    assert Product(0x0000, 0x4006, 4) == 0x0000;
    assert Product(0x0000, 0x9403, 8) == 0x0000;
    assert Product(0x0000, 0x8143, 12) == 0x0000;
    assert Product(0x0002, 0x8017, 16) == 0x802b;
  }

  lemma Product802bx0016()
    ensures Product(0x802b, 0x0016, 16) == 0x8273
  {
    assert Product(0x0008, 0xe005, 4) == 0x8039;
    assert Product(0x0080, 0x1600, 8) == 0x8039;
    assert Product(0x0802, 0x0160, 12) == 0x82f9;
    assert Product(0x802b, 0x0016, 16) == 0x8273;
  }

  lemma Product0200x8113()
    ensures Product(0x0200, 0x8113, 16) == 0x200c
  {
    assert Product(0x0000, 0x8065, 4) == 0x0000;
    assert Product(0x0002, 0x1006, 8) == 0x200c;
    assert Product(0x0020, 0x9103, 12) == 0x200c;
    assert Product(0x0200, 0x8113, 16) == 0x200c;
  }

  lemma Product200cx8107()
    ensures Product(0x200c, 0x8107, 16) == 0x8cf0
  {
    assert Product(0x0002, 0x4060, 4) == 0x80c0;
    assert Product(0x0020, 0x0406, 8) == 0x80c0;
    assert Product(0x0200, 0x9043, 12) == 0x80c0;
    assert Product(0x200c, 0x8107, 16) == 0x8cf0;
  }

  lemma Product8cf0x8115()
    ensures Product(0x8cf0, 0x8115, 16) == 0x9631
  {
    assert Product(0x0008, 0xe065, 4) == 0x8339;
    assert Product(0x008c, 0x1606, 8) == 0x6b11;
    assert Product(0x08cf, 0x9163, 12) == 0x9631;
    assert Product(0x8cf0, 0x8115, 16) == 0x9631;
  }

  lemma Squares()
    ensures IsPower(2, 0x0004)
    ensures IsPower(4, 0x0010)
    ensures IsPower(8, 0x0100)
    ensures IsPower(16, 0x8005)
    ensures IsPower(32, 0x8017)
    ensures IsPower(64, 0x8113)
    ensures IsPower(128, 0x0106)
    ensures IsPower(256, 0x8011)
    ensures IsPower(512, 0x8107)
    ensures IsPower(1024, 0x0016)
    ensures IsPower(2048, 0x0114)
    ensures IsPower(4096, 0x8115)
    ensures IsPower(8192, 0x0112)
    ensures IsPower(16384, 0x8101)
    ensures IsPower(32768, 0x0002)
  {
    PowerOne();
    Product0002x0002();
    Multiply(1, 0x0002, 1, 0x0002, 0x0004);
    Product0004x0004();
    Multiply(2, 0x0004, 2, 0x0004, 0x0010);
    Product0010x0010();
    Multiply(4, 0x0010, 4, 0x0010, 0x0100);
    Product0100x0100();
    Multiply(8, 0x0100, 8, 0x0100, 0x8005);
    Product8005x8005();
    Multiply(16, 0x8005, 16, 0x8005, 0x8017);
    Product8017x8017();
    Multiply(32, 0x8017, 32, 0x8017, 0x8113);
    Product8113x8113();
    Multiply(64, 0x8113, 64, 0x8113, 0x0106);
    Product0106x0106();
    Multiply(128, 0x0106, 128, 0x0106, 0x8011);
    Product8011x8011();
    Multiply(256, 0x8011, 256, 0x8011, 0x8107);
    Product8107x8107();
    Multiply(512, 0x8107, 512, 0x8107, 0x0016);
    Product0016x0016();
    Multiply(1024, 0x0016, 1024, 0x0016, 0x0114);
    Product0114x0114();
    Multiply(2048, 0x0114, 2048, 0x0114, 0x8115);
    Product8115x8115();
    Multiply(4096, 0x8115, 4096, 0x8115, 0x0112);
    Product0112x0112();
    Multiply(8192, 0x0112, 8192, 0x0112, 0x8101);
    Product8101x8101();
    Multiply(16384, 0x8101, 16384, 0x8101, 0x0002);
  }

  lemma Power217()
    ensures IsPower(217, 0xaa7c)
  {
    PowerOne();
    Squares();
    Product0002x0100();
    Multiply(1, 0x0002, 8, 0x0100, 0x0200);
    Product0200x8005();
    Multiply(9, 0x0200, 16, 0x8005, 0x8c03);
    Product8c03x8113();
    Multiply(25, 0x8c03, 64, 0x8113, 0x402b);
    Product402bx0106();
    Multiply(89, 0x402b, 128, 0x0106, 0xaa7c);
  }

  lemma Power1057()
    ensures IsPower(1057, 0x8273)
  {
    PowerOne();
    Squares();
    Product0002x8017();
    Multiply(1, 0x0002, 32, 0x8017, 0x802b);
    Product802bx0016();
    Multiply(33, 0x802b, 1024, 0x0016, 0x8273);
  }

  lemma Power4681()
    ensures IsPower(4681, 0x9631)
  {
    PowerOne();
    Squares();
    Product0002x0100();
    Multiply(1, 0x0002, 8, 0x0100, 0x0200);
    Product0200x8113();
    Multiply(9, 0x0200, 64, 0x8113, 0x200c);
    Product200cx8107();
    Multiply(73, 0x200c, 512, 0x8107, 0x8cf0);
    Product8cf0x8115();
    Multiply(585, 0x8cf0, 4096, 0x8115, 0x9631);
  }

  // ---------------------------------------------------------------- the order

  /** n rounds bring every register back. */
  predicate Period(n: nat) { Power(n) == Unit() }

  lemma FullPeriod()
    ensures Period(32767)
  {
    Squares();
    PowerOne();
    AdvanceAdd(Unit(), 32767, 1);
    AdvanceInjective(Power(32767), Unit(), 1);
  }

  lemma TopBitSet(x: bv16)
    requires x & 0x8000 != 0
    ensures Word(x) != Unit()
  {
    Constants();
    TopBit(x, 0x8000, WIDTH);
  }

  lemma NotProperPeriods()
    ensures !Period(217) && !Period(1057) && !Period(4681)
  {
    Power217();
    Power1057();
    Power4681();
    TopBitSet(0xaa7c);
    TopBitSet(0x8273);
    TopBitSet(0x9631);
  }

  lemma PeriodAdd(m: nat, n: nat)
    requires Period(m)
    ensures Period(m + n) <==> Period(n)
  {
    AdvanceAdd(Unit(), m, n);
  }

  lemma {:induction false} PeriodMultiple(m: nat, k: nat)
    requires Period(m)
    ensures Period(k * m)
    decreases k
  {
    if k > 0 {
      PeriodMultiple(m, k - 1);
      PeriodAdd(m, (k - 1) * m);
      assert k * m == m + (k - 1) * m;
    }
  }

  lemma PeriodDivided(m: nat, n: nat)
    requires m > 0 && Period(m) && n % m == 0
    ensures Period(n)
  {
    var k := n / m;
    PeriodMultiple(m, k);
    assert n == k * m;
  }

  lemma PeriodRemainder(m: nat, n: nat)
    requires m > 0 && Period(m) && Period(n)
    ensures Period(n % m)
  {
    var k := n / m;
    PeriodMultiple(m, k);
    assert n == k * m + n % m;
    PeriodAdd(k * m, n % m);
  }

  /** The least period up to n. */
  lemma {:induction false} LeastPeriod(n: nat) returns (m: nat)
    requires n > 0 && Period(n)
    ensures 0 < m <= n && Period(m) && forall k :: 0 < k < m ==> !Period(k)
    decreases n
  {
    if k :| 0 < k < n && Period(k) {
      m := LeastPeriod(k);
    } else {
      m := n;
    }
  }

  /** k does not divide 32767 = 7 * 31 * 151, unless it is 1 or one of the prime factors. */
  predicate Harmless(k: nat) { k <= 1 || 32767 % k != 0 || k == 7 || k == 31 || k == 151 }

  lemma SmallFactors(k: nat)
    requires k < 192
    ensures Harmless(k)
  {
  }

  lemma FactorPair(m: nat, e: nat)
    requires m >= 192 && m * e == 32767
    ensures e < 192
  {
    if e >= 192 {
      ProductGrows(m, e);
    }
  }

  lemma ProductGrows(m: nat, e: nat)
    requires m >= 192 && e >= 192
    ensures m * e >= 36864
  {
    assert m * e >= 192 * e;
  }

  lemma AtLeastOnce(x: int, d: nat)
    ensures x >= 1 ==> x * d >= d
    ensures x <= -1 ==> x * d + d <= 0
  {
  }

  /** A multiple of d leaves no remainder. */
  lemma NoRemainder(n: nat, q: nat, d: nat)
    requires d > 0 && n == q * d
    ensures n % d == 0
  {
    var x: int := q - n / d;
    assert x * d == n % d;
    AtLeastOnce(x, d);
  }

  /** Every proper divisor of 32767 divides 217, 1057 or 4681. */
  lemma ProperDivisors(m: nat)
    requires 0 < m < 32767 && 32767 % m == 0
    ensures 217 % m == 0 || 1057 % m == 0 || 4681 % m == 0
  {
    if m < 192 {
      SmallFactors(m);
    } else {
      var e := 32767 / m;
      assert m * e == 32767;
      FactorPair(m, e);
      NoRemainder(32767, m, e);
      SmallFactors(e);
    }
  }

  lemma NoShortPeriod(r: nat)
    requires 0 < r < 32767
    ensures !Period(r)
  {
    if Period(r) {
      FullPeriod();
      var m := LeastPeriod(r);
      PeriodRemainder(m, 32767);
      ProperDivisors(m);
      NotProperPeriods();
      PeriodDivided(m, if 217 % m == 0 then 217 else if 1057 % m == 0 then 1057 else 4681);
    }
  }

  /** The order of the polynomial: n rounds are the identity exactly when 32767 divides n. */
  lemma Order(n: nat)
    ensures Period(n) <==> n % 32767 == 0
  {
    FullPeriod();
    if Period(n) {
      PeriodRemainder(32767, n);
      if n % 32767 != 0 {
        NoShortPeriod(n % 32767);
      }
    } else if n % 32767 == 0 {
      PeriodDivided(32767, n);
    }
  }

  // ---------------------------------------------------------------- two wrong bits

  /** The polynomial enters an empty register with a wrong bit, or when the top bit falls out. */
  lemma PolyEnters()
    ensures Step(Zeros(16), true) == Poly() && Step(OneHot(16, 15), false) == Poly()
  {
    assert [false] + Zeros(16)[..15] == Zeros(16);
    assert [false] + OneHot(16, 15)[..15] == Zeros(16);
    assert Xor(Zeros(16), Poly()) == Poly();
  }

  lemma PolyIsPower()
    ensures Step(Zeros(16), true) == Poly() == Power(16)
  {
    PolyEnters();
    PowerOfUnit(15);
    AdvanceAdd(Unit(), 15, 1);
    assert Advance(OneHot(16, 15), 1) == Advance(Step(OneHot(16, 15), false), 0);
  }

  lemma {:induction false} PowerOfUnit(k: nat)
    requires k < 16
    ensures Power(k) == OneHot(16, k)
  {
    if k > 0 {
      PowerOfUnit(k - 1);
      AdvanceAdd(Unit(), k - 1, 1);
      assert Advance(OneHot(16, k - 1), 1) == Step(OneHot(16, k - 1), false);
      assert Step(OneHot(16, k - 1), false) == OneHot(16, k);
    }
  }

  /** After a wrong bit, d - 1 right ones and another wrong bit, the register is zero exactly
      when d rounds bring the polynomial back. */
  lemma GapResidue(d: nat)
    requires d > 0
    ensures Run(Poly(), Zeros(d - 1) + [true]) == Xor(Advance(Poly(), d), Poly())
  {
    RunOneMore(Poly(), Zeros(d - 1), true);
    AdvanceIsRun(Poly(), d - 1);
    AdvanceAdd(Poly(), d - 1, 1);
    var s := Advance(Poly(), d - 1);
    assert Advance(s, 1) == Step(s, false);
    assert Step(s, true) == Xor(Step(s, false), Poly());
  }

  lemma PolyReturns(d: nat)
    ensures Advance(Poly(), d) == Poly() <==> Period(d)
  {
    PolyIsPower();
    AdvanceAdd(Unit(), 16, d);
    AdvanceAdd(Unit(), d, 16);
    if Advance(Poly(), d) == Poly() {
      AdvanceInjective(Power(d), Unit(), 16);
    }
  }

  /** Two wrong bits, d apart. */
  function TwoBits(before: nat, d: nat, after: nat): Bits
    requires d > 0
  {
    Zeros(before) + [true] + (Zeros(d - 1) + [true]) + Zeros(after)
  }

  lemma TwoBitResidue(i: nat, d: nat, after: nat)
    requires d > 0
    ensures Residue(TwoBits(i, d, after)) == Zeros(16) <==> d % 32767 == 0
  {
    var zero := Zeros(16);
    var gap := Zeros(d - 1) + [true];
    RunConcat(zero, Zeros(i) + [true] + gap, Zeros(after));
    RunConcat(zero, Zeros(i) + [true], gap);
    ZerosStay(i);
    RunOneMore(zero, Zeros(i), true);
    PolyIsPower();
    GapResidue(d);
    EqualByXor(Advance(Poly(), d), Poly());
    PolyReturns(d);
    Order(d);
    var s := Run(Poly(), gap);
    if s == zero {
      ZerosStay(after);
    } else if Run(s, Zeros(after)) == zero {
      ZerosKeepNonZero(s, after);
    }
  }

  lemma TwoBitShape(e: Bits, i: nat, j: nat)
    requires i < j < |e| && forall k :: 0 <= k < |e| ==> (e[k] <==> k == i || k == j)
    ensures e == TwoBits(i, j - i, |e| - j - 1)
  {
  }

  lemma TwoBitError(e: Bits, i: nat, j: nat)
    requires i < j < |e| && forall k :: 0 <= k < |e| ==> (e[k] <==> k == i || k == j)
    ensures Residue(e) == Zeros(16) <==> (j - i) % 32767 == 0
  {
    TwoBitShape(e, i, j);
    TwoBitResidue(i, j - i, |e| - j - 1);
  }

  /** Two messages that differ in exactly two bits have the same CRC if and only if the distance
      between the two bits is a multiple of 32767. */
  lemma DetectsTwoErrors(x: seq<Byte>, y: seq<Byte>, i: nat, j: nat)
    requires |x| == |y| && i < j < 8 * |x|
    requires forall k :: 0 <= k < 8 * |x| ==> (Serial(x)[k] != Serial(y)[k] <==> k == i || k == j)
    ensures Crc(x) == Crc(y) <==> (j - i) % 32767 == 0
  {
    TwoBitError(Xor(Serial(x), Serial(y)), i, j);
    SameCrc(x, y);
  }
}
