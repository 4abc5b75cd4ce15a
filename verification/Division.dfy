/** Division by shifting and subtracting (lib/math.c), on 32-bit words. */
module Division {
  import opened Machine
  import opened Bits

  /** Bitwise or of two numbers. */
  function Or(a: nat, b: nat): nat
    decreases a + b
  {
    if a == 0 && b == 0 then 0
    else (if a % 2 == 1 || b % 2 == 1 then 1 else 0) + 2 * Or(a / 2, b / 2)
  }

  /** A bit below every set bit is added by or-ing it in. */
  lemma {:induction false} OrAdds(q: nat, k: nat)
    ensures Or(q * Pow2(k + 1), Pow2(k)) == q * Pow2(k + 1) + Pow2(k)
  {
    if k == 0 {
      assert Pow2(1) == 2;
      OrZero(q);
    } else {
      OrAdds(q, k - 1);
      Doubled(q, k);
      OrDoubled(q * Pow2(k), Pow2(k - 1));
    }
  }

  lemma OrDoubled(a: nat, b: nat)
    ensures Or(2 * a, 2 * b) == 2 * Or(a, b)
  {
  }

  lemma {:induction false} OrZero(a: nat)
    ensures Or(a, 0) == a
  {
    if a > 0 {
      OrZero(a / 2);
    }
  }

  lemma {:induction false} Pow2Grows(k: nat, n: nat)
    requires k <= n
    ensures Pow2(k) <= Pow2(n)
  {
    if k < n {
      Pow2Grows(k, n - 1);
    }
  }

  lemma Pow32()
    ensures Pow2(32) == MODULUS
  {
    assert Pow2(8) == 256;
    assert Pow2(16) == 65536;
    assert Pow2(24) == 0x100_0000;
  }

  /** The first loop: the divisor moves up until it reaches the number or its own top bit; for a zero
      divisor the marker bit is shifted out of the word, unless the number is zero too. */
  method Align(num: Word, den0: Word) returns (den: Word, bit: Word, ghost k: int)
    ensures den0 > 0 ==> 0 <= k && bit == Pow2(k) && den == den0 * Pow2(k) && num < 2 * den
    ensures den0 == 0 ==> den == 0 && bit == (if num == 0 then 1 else 0)
  {
    bit, den, k := 1, den0, 0;
    while den < num && bit != 0 && den < HALF
      invariant 0 <= k <= 32
      invariant bit == if k < 32 then Pow2(k) else 0
      invariant den == den0 * Pow2(k)
      invariant den0 > 0 ==> k < 32
      invariant k > 0 ==> num > 0
      decreases 32 - k
    {
      Doubled(den0, k);
      den := den * 2 % MODULUS;
      TopBit(k);
      bit := bit * 2 % MODULUS;
      k := k + 1;
      if den0 > 0 {
        Below(den0, k);
      }
    }
  }

  lemma Doubled(d: nat, k: nat)
    ensures d * Pow2(k + 1) == 2 * (d * Pow2(k))
  {
  }

  lemma TopBit(k: nat)
    requires k < 32
    ensures Pow2(k) * 2 % MODULUS == if k + 1 < 32 then Pow2(k + 1) else 0
  {
    Pow32();
    if k < 31 {
      Pow2Grows(k + 1, 31);
    }
  }

  lemma AtLeast(d: nat, p: nat)
    requires d > 0
    ensures d * p >= p
  {
    assert (d - 1) * p >= 0;
  }

  lemma Below(d: nat, k: nat)
    requires d > 0 && k <= 32 && d * Pow2(k) < MODULUS
    ensures k < 32
  {
    Pow32();
    AtLeast(d, Pow2(k));
  }

  /** What has been divided so far: q times unit, and a rest below unit. */
  predicate Partial(num0: nat, num: nat, q: nat, unit: nat) { num0 == q * unit + num && num < unit }

  /** One round of the second loop halves the unit. */
  lemma RoundKeeps(num0: nat, num: nat, q: nat, d: nat)
    requires Partial(num0, num, q, 2 * d)
    ensures if num >= d then Partial(num0, num - d, 2 * q + 1, d) else Partial(num0, num, 2 * q, d)
  {
    assert q * (2 * d) == 2 * (q * d);
    assert (2 * q) * d == 2 * (q * d);
    assert (2 * q + 1) * d == 2 * (q * d) + d;
  }

  lemma Monotone(a: nat, p: nat, d: nat)
    requires p <= d
    ensures a * p <= a * d
  {
    assert a * (d - p) >= 0;
  }

  /** The quotient so far with the next bit, and it still fits a word. */
  lemma NextBit(num0: nat, num: nat, q: nat, k: nat, d: nat)
    requires num0 < MODULUS && Partial(num0, num, q, 2 * d) && Pow2(k) <= d && num >= d
    ensures Or(q * Pow2(k + 1), Pow2(k)) == (2 * q + 1) * Pow2(k) < MODULUS
  {
    OrAdds(q, k);
    assert q * Pow2(k + 1) + Pow2(k) == (2 * q + 1) * Pow2(k);
    RoundKeeps(num0, num, q, d);
    Monotone(2 * q + 1, Pow2(k), d);
  }

  lemma Doubled2(q: nat, k: nat)
    ensures q * Pow2(k + 1) == (2 * q) * Pow2(k)
  {
  }

  lemma HalfOf(d: nat, k: nat)
    requires k > 0
    ensures Pow2(k) / 2 == Pow2(k - 1) && d * Pow2(k) == 2 * (d * Pow2(k - 1))
  {
    Doubled(d, k - 1);
  }

  /** What holds at the head of the second loop for a divisor that is not zero. */
  ghost predicate Dividing(num0: nat, den0: nat, num: nat, den: nat, bit: nat, res: nat, q: nat, k: nat) {
    && res == q * Pow2(k)
    && if k == 0 then bit == 0 && Partial(num0, num, q, den0)
       else bit == Pow2(k - 1) && den == den0 * Pow2(k - 1) && Partial(num0, num, q, 2 * den)
  }

  lemma DividingOn(num0: Word, den0: Word, num: Word, den: Word, bit: Word, res: Word, q: nat, k: nat)
    requires den0 > 0 && bit != 0 && Dividing(num0, den0, num, den, bit, res, q, k)
    ensures k > 0
    ensures num >= den ==>
      Or(res, bit) < MODULUS
      && Dividing(num0, den0, num - den, den / 2, bit / 2, Or(res, bit), 2 * q + 1, k - 1)
    ensures num < den ==> Dividing(num0, den0, num, den / 2, bit / 2, res, 2 * q, k - 1)
  {
    AtLeast(den0, Pow2(k - 1));
    RoundKeeps(num0, num, q, den);
    Doubled2(q, k - 1);
    if num >= den {
      NextBit(num0, num, q, k - 1, den);
    }
    if k > 1 {
      HalfOf(den0, k - 1);
    }
  }

  lemma DividingStart(num0: Word, den0: Word, den: Word, bit: Word, k: nat)
    requires den0 > 0 && bit == Pow2(k) && den == den0 * Pow2(k) && num0 < 2 * den
    ensures Dividing(num0, den0, num0, den, bit, 0, 0, k + 1)
  {
  }

  lemma DividingDone(num0: Word, den0: Word, num: Word, den: Word, res: Word, q: nat, k: nat)
    requires den0 > 0 && Dividing(num0, den0, num, den, 0, res, q, k)
    ensures Partial(num0, num, res, den0)
  {
  }

  /** The second loop. A zero divisor can only meet the marker bit 1, and a number that is zero. */
  method Subtract(num0: Word, den0: Word, den1: Word, bit1: Word, ghost k1: int) returns (res: Word, num: Word)
    requires den0 > 0 ==> 0 <= k1 && bit1 == Pow2(k1) && den1 == den0 * Pow2(k1) && num0 < 2 * den1
    requires den0 == 0 ==> den1 == 0 && bit1 == if num0 == 0 then 1 else 0
    ensures den0 > 0 ==> Partial(num0, num, res, den0)
    ensures den0 == 0 ==> num == num0 && res == bit1
  {
    var den, bit := den1, bit1;
    num, res := num0, 0;
    ghost var k: nat := if den0 > 0 then k1 + 1 else 0;
    ghost var q: nat := 0;
    if den0 > 0 {
      DividingStart(num0, den0, den, bit, k1);
    }
    while bit != 0
      invariant den0 > 0 ==> Dividing(num0, den0, num, den, bit, res, q, k)
      invariant den0 == 0 ==> den == 0 && num == num0 && (if bit != 0 then bit == bit1 && res == 0 else res == bit1)
      decreases bit
    {
      if den0 > 0 {
        DividingOn(num0, den0, num, den, bit, res, q, k);
      } else {
        OrAdds(0, 0);
      }
      q := 2 * q + if num >= den then 1 else 0;
      k := if k > 0 then k - 1 else 0;
      if num >= den {
        num := num - den;
        res := Or(res, bit);
      }
      bit := bit / 2;
      den := den / 2;
    }
    if den0 > 0 {
      DividingDone(num0, den0, num, den, res, q, k);
    }
  }

  /** udivmodsi4: quotient or remainder; for a zero divisor, the number itself as remainder, and as quotient
      zero, or one if the number is zero too. */
  method UDivMod(num0: Word, den0: Word, modwanted: bool) returns (r: Word)
    ensures r == UResult(num0, den0, modwanted)
  {
    var den, bit, k := Align(num0, den0);
    var res, num := Subtract(num0, den0, den, bit, k);
    if den0 > 0 {
      Unique(num0, res, den0, num);
    }
    if modwanted {
      return num;
    }
    return res;
  }

  function UResult(num: Word, den: Word, modwanted: bool): (r: Word) {
    if den == 0 then if modwanted then num else if num == 0 then 1 else 0
    else if modwanted then num % den
    else QuotientFits(num, den); num / den
  }

  lemma QuotientFits(n: nat, d: nat)
    requires d > 0
    ensures n / d <= n
  {
    AtLeast(d, n / d);
    assert n == d * (n / d) + n % d;
  }

  lemma Unique(n: nat, q: nat, d: nat, r: nat)
    requires n == q * d + r && r < d
    ensures q == n / d && r == n % d
  {
    var q' := n / d;
    assert n == q' * d + n % d;
    Difference(q, q', d);
    Difference(q', q, d);
    if q < q' {
      AtLeast(q' - q, d);
    } else if q' < q {
      AtLeast(q - q', d);
    }
  }

  lemma Difference(x: int, y: int, d: int)
    ensures (x - y) * d == x * d - y * d
  {
  }

  // ---------------------------------------------------------------- signed division

  /** A long passed as an unsigned long, and back. */
  function Unsigned(a: Long): Word { if a < 0 then a + MODULUS else a }

  function Signed(u: Word): Long { if u < HALF then u else u - MODULUS }

  /** -a in two's complement. */
  function Negated(a: Long): Long { if a == -HALF then a else -a }

  function Abs(a: int): nat { if a < 0 then -a else a }

  /** Division truncating toward zero. */
  function Quotient(a: int, b: int): int
    requires b != 0
  {
    if (a < 0) != (b < 0) then -(Abs(a) / Abs(b)) else Abs(a) / Abs(b)
  }

  function Remainder(a: int, b: int): int
    requires b != 0
  {
    if a < 0 then -(Abs(a) % Abs(b)) else Abs(a) % Abs(b)
  }

  /** Truncated division is what these two are, and nothing else is. */
  lemma TruncatedExactly(a: int, b: int, q: int, r: int)
    requires b != 0
    ensures (a == q * b + r && Abs(r) < Abs(b) && (r == 0 || (r < 0) == (a < 0)))
       <==> q == Quotient(a, b) && r == Remainder(a, b)
  {
    if a == q * b + r && Abs(r) < Abs(b) && (r == 0 || (r < 0) == (a < 0)) {
      SignOf(a, b, q, r);
      Unique(Abs(a), Abs(q), Abs(b), Abs(r));
    } else {
      QuotientDivides(a, b);
    }
  }

  lemma QuotientDivides(a: int, b: int)
    requires b != 0
    ensures a == Quotient(a, b) * b + Remainder(a, b)
  {
    var n, d := Abs(a), Abs(b);
    assert n == (n / d) * d + n % d;
    Signs(n / d, d);
  }

  lemma Signs(q: int, b: int)
    ensures (-q) * b == -(q * b) && q * (-b) == -(q * b) && (-q) * (-b) == q * b
  {
  }

  lemma NotNegative(a: nat, b: nat, q: int, r: nat)
    requires r < b && a == q * b + r
    ensures q >= 0
  {
    if q < 0 {
      Signs(q, b);
      AtLeast(-q, b);
    }
  }

  /** The parts of a truncated division have the magnitudes of an unsigned one. */
  lemma SignOf(a: int, b: int, q: int, r: int)
    requires b != 0 && a == q * b + r && Abs(r) < Abs(b) && (r == 0 || (r < 0) == (a < 0))
    ensures Abs(a) == Abs(q) * Abs(b) + Abs(r)
    ensures (a < 0) != (b < 0) ==> q + Abs(q) == 0
    ensures (a < 0) == (b < 0) ==> q == Abs(q)
  {
    var s := if (a < 0) != (b < 0) then -q else q;
    Signs(q, b);
    NotNegative(Abs(a), Abs(b), s, Abs(r));
  }

  lemma Magnitude(a: Long)
    ensures Unsigned(if a < 0 then Negated(a) else a) == Abs(a) <= HALF
  {
  }

  /** Only the largest magnitude over one gives a quotient outside the positive longs. */
  lemma SmallQuotient(n: nat, d: nat)
    requires n <= HALF && d > 0
    ensures n / d <= HALF && (n / d == HALF <==> n == HALF && d == 1)
  {
    var q := n / d;
    assert n == q * d + n % d;
    Difference(d, 1, q);
    AtLeast(d, q);
    if d > 1 {
      Monotone(q, 2, d);
    }
  }

  /** The quotient of magnitudes q with its sign put back. */
  function WithSign(q: nat, neg: bool): (r: Long)
    requires q <= HALF
    ensures neg ==> r + q == 0
    ensures !neg ==> r == if q == HALF then -HALF else q
  {
    var s := Signed(q);
    if neg then Negated(s) else s
  }

  /** __divsi3: the truncated quotient, for every divisor but zero, unless it is 2^31. */
  method DivSi3(a0: Long, b0: Long) returns (res: Long)
    ensures b0 != 0 ==> (res == Quotient(a0, b0) <==> !(a0 == -HALF && b0 == -1))
    ensures a0 == -HALF && b0 == -1 ==> res == -HALF
    ensures b0 == 0 ==> res == if a0 == 0 then 1 else 0
  {
    var a, b, neg := a0, b0, false;
    if a < 0 {
      a := Negated(a);
      neg := !neg;
    }
    if b < 0 {
      b := Negated(b);
      neg := !neg;
    }
    Magnitude(a0);
    Magnitude(b0);
    var u := UDivMod(Unsigned(a), Unsigned(b), false);
    if b0 != 0 {
      SmallQuotient(Abs(a0), Abs(b0));
      assert u == Abs(a0) / Abs(b0);
    }
    res := Signed(u);
    if neg {
      res := Negated(res);
    }
    assert u <= HALF && res == WithSign(u, neg);
  }

  /** __modsi3: the truncated remainder; a zero divisor gives back the number. */
  method ModSi3(a0: Long, b0: Long) returns (res: Long)
    ensures res == if b0 == 0 then a0 else Remainder(a0, b0)
  {
    var a, b, neg := a0, b0, false;
    if a < 0 {
      a := Negated(a);
      neg := true;
    }
    if b < 0 {
      b := Negated(b);
    }
    var u := UDivMod(Unsigned(a), Unsigned(b), true);
    res := Signed(u);
    if neg {
      res := Negated(res);
    }
  }
}
