/** The token CRC of USB (usb_crc5 in dev/usb.c): x^5 + x^2 + 1, bits sent highest first. */
module Crc5 {
  import opened Bits

  /** A 32-bit word; element k is bit k. */
  type Bits32 = r: Bits | |r| == 32 witness seq(32, k => false)

  /** The plain shift register of five bits. */
  type Register = r: Bits | |r| == 5 witness seq(5, k => false)

  /** 0x05 */
  function Poly(): Register { [true, false, true, false, false] }

  function AllOnes(): Register { [true, true, true, true, true] }

  function Step(a: Register, b: bool): Register {
    XorIf([false] + a[..4], a[4] != b, Poly())
  }

  function Run(a: Register, bits: Bits): Register
    decreases |bits|
  {
    if bits == [] then a else Run(Step(a, bits[0]), bits[1..])
  }

  /** The lowest n bits of x in the order they are sent. */
  function Sent(x: Bits32, n: nat): (r: Bits)
    requires n <= 32
    ensures |r| == n
  {
    seq(n, i requires 0 <= i < n => x[n - 1 - i])
  }

  /** The CRC of the lowest n bits of x. */
  function Crc(x: Bits32, n: nat): Register
    requires n <= 32
  {
    Not(Run(AllOnes(), Sent(x, n)))
  }

  lemma {:induction false} RunConcat(a: Register, x: Bits, y: Bits)
    ensures Run(a, x + y) == Run(Run(a, x), y)
    decreases |x|
  {
    if x == [] {
      assert x + y == y;
    } else {
      assert (x + y)[1..] == x[1..] + y;
      RunConcat(Step(a, x[0]), x[1..], y);
    }
  }

  lemma RunOneMore(a: Register, x: Bits, n: nat)
    requires n < |x|
    ensures Run(a, x[..n + 1]) == Step(Run(a, x[..n]), x[n])
  {
    assert x[..n + 1] == x[..n] + [x[n]];
    RunConcat(a, x[..n], [x[n]]);
    assert Run(Run(a, x[..n]), [x[n]]) == Run(Step(Run(a, x[..n]), x[n]), []);
  }

  /** w shifted left by n. */
  function ShiftLeft(w: Bits32, n: nat): Bits32
    requires n <= 32
  {
    Zeros(n) + w[..32 - n]
  }

  function ShiftRight(w: Bits32, n: nat): Bits32
    requires n <= 32
  {
    w[n..] + Zeros(n)
  }

  /** A register in the top five bits of a word. */
  function Top(a: Register): Bits32 { Zeros(27) + a }

  /** One round on the word is one round on the register in its top bits. */
  lemma TopStep(a: Register, b: bool)
    ensures XorIf(ShiftLeft(Top(a), 1), a[4] != b, Top(Poly())) == Top(Step(a, b))
  {
  }

  /** usb_crc5: the register is kept in the top bits of a word, with the other 27 always zero; the result
      is the complement of the plain register, or all ones for a bit count out of range. */
  method UsbCrc5(input: Bits32, bitcnt: int) returns (crc: Bits32)
    ensures crc == if 1 <= bitcnt <= 32 then Crc(input, bitcnt) + Zeros(27) else Not(Zeros(32))
  {
    var poly5 := Top(Poly());
    var crc5 := Top(AllOnes());
    if bitcnt < 1 || bitcnt > 32 {
      return Not(Zeros(32));
    }
    var udata := ShiftLeft(input, 32 - bitcnt);
    ghost var sent := Sent(input, bitcnt);
    ghost var a := AllOnes();
    for i := 0 to bitcnt
      invariant crc5 == Top(a) && a == Run(AllOnes(), sent[..i])
      invariant forall k :: i <= k < bitcnt ==> udata[31 - (k - i)] == sent[k]
    {
      var differ := udata[31] != crc5[31];
      crc5 := ShiftLeft(crc5, 1);
      if differ {
        crc5 := Xor(crc5, poly5);
      }
      udata := ShiftLeft(udata, 1);
      TopStep(a, sent[i]);
      RunOneMore(AllOnes(), sent, i);
      a := Step(a, sent[i]);
    }
    assert sent[..bitcnt] == sent;
    crc5 := ShiftRight(crc5, 27);
    crc := Xor(crc5, AllOnes() + Zeros(27));
  }

  // ---------------------------------------------------------------- examples of the white paper

  /** One round on five named bits. */
  function Next(a: Register, b: bool): Register { [a[4] != b, a[0], a[1] != (a[4] != b), a[2], a[3]] }

  lemma StepIsNext(a: Register, b: bool)
    ensures Step(a, b) == Next(a, b)
  {
  }

  lemma Round(a: Register, b: bool, rest: Bits)
    ensures Run(a, [b] + rest) == Run(Next(a, b), rest)
  {
    StepIsNext(a, b);
    assert ([b] + rest)[1..] == rest;
  }

  lemma TwoRounds(a: Register, b0: bool, b1: bool, rest: Bits)
    ensures Run(a, [b0, b1] + rest) == Run(Next(Next(a, b0), b1), rest)
  {
    Round(a, b0, [b1] + rest);
    Round(Next(a, b0), b1, rest);
    assert [b0, b1] + rest == [b0] + ([b1] + rest);
  }

  function Four(a: Register, b: Bits): Register
    requires |b| == 4
  {
    Next(Next(Next(Next(a, b[0]), b[1]), b[2]), b[3])
  }

  lemma FourRounds(a: Register, b: Bits, rest: Bits)
    requires |b| == 4
    ensures Run(a, b + rest) == Run(Four(a, b), rest)
  {
    TwoRounds(a, b[0], b[1], [b[2], b[3]] + rest);
    TwoRounds(Next(Next(a, b[0]), b[1]), b[2], b[3], rest);
    assert b + rest == [b[0], b[1]] + ([b[2], b[3]] + rest);
  }

  function Three(a: Register, b: Bits): Register
    requires |b| == 3
  {
    Next(Next(Next(a, b[0]), b[1]), b[2])
  }

  lemma ThreeRounds(a: Register, b: Bits)
    requires |b| == 3
    ensures Run(a, b) == Three(a, b)
  {
    TwoRounds(a, b[0], b[1], [b[2]]);
    Round(Next(Next(a, b[0]), b[1]), b[2], []);
    assert b == [b[0], b[1]] + [b[2]] && [b[2]] == [b[2]] + [];
  }

  lemma ElevenRounds(x: Bits32, high: Bits, mid: Bits, low: Bits)
    requires |high| == |mid| == 4 && |low| == 3 && Sent(x, 11) == high + mid + low
    ensures Crc(x, 11) == Not(Three(Four(Four(AllOnes(), high), mid), low))
  {
    FourRounds(AllOnes(), high, mid + low);
    FourRounds(Four(AllOnes(), high), mid, low);
    ThreeRounds(Four(Four(AllOnes(), high), mid), low);
    assert high + mid + low == high + (mid + low);
  }

  /** The lowest eleven bits of x, highest first. */
  lemma SentEleven(x: Bits32, b: Bits)
    requires |b| == 11 && x[..11] == b
    ensures Sent(x, 11) == [b[10], b[9], b[8], b[7]] + [b[6], b[5], b[4], b[3]] + [b[2], b[1], b[0]]
  {
    assert forall k :: 0 <= k < 11 ==> x[k] == b[k];
  }

  /** An input, as the three groups of bits sent. */
  predicate Groups(input: nat, high: Bits, mid: Bits, low: Bits)
    requires |high| == |mid| == 4 && |low| == 3
  {
    BitsOf(input, 11) == [low[2], low[1], low[0], mid[3], mid[2], mid[1], mid[0], high[3], high[2], high[1], high[0]]
  }

  /** An input and its checksum. */
  predicate Example(input: nat, high: Bits, mid: Bits, low: Bits, crc: nat)
    requires |high| == |mid| == 4 && |low| == 3
  {
    Groups(input, high, mid, low) && Not(Three(Four(Four(AllOnes(), high), mid), low)) == BitsOf(crc, 5)
  }

  lemma ExampleGives(x: Bits32, input: nat, high: Bits, mid: Bits, low: Bits, crc: nat)
    requires |high| == |mid| == 4 && |low| == 3 && Example(input, high, mid, low, crc)
    ensures x[..11] == BitsOf(input, 11) ==> Crc(x, 11) == BitsOf(crc, 5)
  {
    if x[..11] == BitsOf(input, 11) {
      SentEleven(x, BitsOf(input, 11));
      assert high + mid + low == Sent(x, 11);
      ElevenRounds(x, high, mid, low);
    }
  }

  lemma Groups547()
    ensures Groups(0x547, [true, false, true, false], [true, false, false, false], [true, true, true])
  {
  }

  lemma Example547()
    ensures Example(0x547, [true, false, true, false], [true, false, false, false], [true, true, true], 0x17)
  {
    Groups547();
    assert Four(AllOnes(), [true, false, true, false]) == [true, false, false, false, false];
    assert BitsOf(0x17, 5) == [true, true, true, false, true];
  }

  lemma Groups2e5()
    ensures Groups(0x2e5, [false, true, false, true], [true, true, false, false], [true, false, true])
  {
  }

  lemma Example2e5()
    ensures Example(0x2e5, [false, true, false, true], [true, true, false, false], [true, false, true], 0x1c)
  {
    Groups2e5();
    assert Four(AllOnes(), [false, true, false, true]) == [true, true, true, false, true];
    assert Four([true, true, true, false, true], [true, true, false, false]) == [true, true, false, true, false];
    assert BitsOf(0x1c, 5) == [false, false, true, true, true];
  }

  lemma Example72()
    ensures Example(0x72, [false, false, false, false], [true, true, true, false], [false, true, false], 0xe)
  {
    assert Four(AllOnes(), [false, false, false, false]) == [false, true, true, false, false];
    assert BitsOf(0xe, 5) == [false, true, true, true, false];
  }

  lemma Example400()
    ensures Example(0x400, [true, false, false, false], [false, false, false, false], [false, false, false], 0x17)
  {
    assert Four(AllOnes(), [true, false, false, false]) == [true, true, false, true, false];
    assert BitsOf(0x17, 5) == [true, true, true, false, true];
  }

  /** The four addresses of the white paper get the checksums that the comment promises. */
  lemma WhitePaperExamples(x: Bits32)
    ensures x[..11] == BitsOf(0x547, 11) ==> Crc(x, 11) == BitsOf(0x17, 5)
    ensures x[..11] == BitsOf(0x2e5, 11) ==> Crc(x, 11) == BitsOf(0x1c, 5)
    ensures x[..11] == BitsOf(0x72, 11) ==> Crc(x, 11) == BitsOf(0xe, 5)
    ensures x[..11] == BitsOf(0x400, 11) ==> Crc(x, 11) == BitsOf(0x17, 5)
  {
    Example547();
    ExampleGives(x, 0x547, [true, false, true, false], [true, false, false, false], [true, true, true], 0x17);
    Example2e5();
    ExampleGives(x, 0x2e5, [false, true, false, true], [true, true, false, false], [true, false, true], 0x1c);
    Example72();
    ExampleGives(x, 0x72, [false, false, false, false], [true, true, true, false], [false, true, false], 0xe);
    Example400();
    ExampleGives(x, 0x400, [true, false, false, false], [false, false, false, false], [false, false, false], 0x17);
  }

  // ---------------------------------------------------------------- errors

  lemma StepLinear(a: Register, b: Register, x: bool, y: bool)
    ensures Step(Xor(a, b), x != y) == Xor(Step(a, x), Step(b, y))
  {
  }

  lemma {:induction false} RunLinear(a: Register, b: Register, x: Bits, y: Bits)
    requires |x| == |y|
    ensures Run(Xor(a, b), Xor(x, y)) == Xor(Run(a, x), Run(b, y))
    decreases |x|
  {
    if x != [] {
      StepLinear(a, b, x[0], y[0]);
      assert Xor(x, y)[1..] == Xor(x[1..], y[1..]);
      RunLinear(Step(a, x[0]), Step(b, y[0]), x[1..], y[1..]);
    }
  }

  /** What an error pattern leaves in a register that starts at zero. */
  function Residue(e: Bits): Register { Run(Zeros(5), e) }

  lemma SameCrc(x: Bits32, y: Bits32, n: nat)
    requires n <= 32
    ensures Crc(x, n) == Crc(y, n) <==> Residue(Xor(Sent(x, n), Sent(y, n))) == Zeros(5)
  {
    var a, b := Run(AllOnes(), Sent(x, n)), Run(AllOnes(), Sent(y, n));
    RunLinear(AllOnes(), AllOnes(), Sent(x, n), Sent(y, n));
    SelfXor(AllOnes());
    assert Residue(Xor(Sent(x, n), Sent(y, n))) == Xor(a, b);
    EqualByXor(a, b);
    assert Not(Not(a)) == a && Not(Not(b)) == b;
    assert Crc(x, n) == Not(a) && Crc(y, n) == Not(b);
  }

  lemma {:induction false} ZerosStay(n: nat)
    ensures Run(Zeros(5), Zeros(n)) == Zeros(5)
  {
    if n > 0 {
      ZerosStay(n - 1);
      assert Zeros(n)[1..] == Zeros(n - 1);
      assert Step(Zeros(5), false) == Zeros(5);
    }
  }

  lemma {:induction false} ZerosKeepNonZero(a: Register, n: nat)
    requires Run(a, Zeros(n)) == Zeros(5)
    ensures a == Zeros(5)
    decreases n
  {
    if n > 0 {
      assert Zeros(n)[1..] == Zeros(n - 1);
      ZerosKeepNonZero(Step(a, false), n - 1);
      StepIsNext(a, false);
      assert Next(a, false) == [false, false, false, false, false];
      assert a == [a[0], a[1], a[2], a[3], a[4]];
      assert Zeros(5) == [false, false, false, false, false];
    }
  }

  /** The registers that follow the polynomial under zero message bits. */
  function Orbit(m: nat): Register {
    if m == 0 then [true, false, true, false, false]
    else if m == 1 then [false, true, false, true, false]
    else if m == 2 then [false, false, true, false, true]
    else if m == 3 then [true, false, true, true, false]
    else if m == 4 then [false, true, false, true, true]
    else if m == 5 then [true, false, false, false, true]
    else if m == 6 then [true, true, true, false, false]
    else if m == 7 then [false, true, true, true, false]
    else if m == 8 then [false, false, true, true, true]
    else if m == 9 then [true, false, true, true, true]
    else if m == 10 then [true, true, true, true, true]
    else if m == 11 then [true, true, false, true, true]
    else if m == 12 then [true, true, false, false, true]
    else if m == 13 then [true, true, false, false, false]
    else if m == 14 then [false, true, true, false, false]
    else if m == 15 then [false, false, true, true, false]
    else if m == 16 then [false, false, false, true, true]
    else if m == 17 then [true, false, true, false, true]
    else if m == 18 then [true, true, true, true, false]
    else if m == 19 then [false, true, true, true, true]
    else if m == 20 then [true, false, false, true, true]
    else if m == 21 then [true, true, true, false, true]
    else if m == 22 then [true, true, false, true, false]
    else if m == 23 then [false, true, true, false, true]
    else if m == 24 then [true, false, false, true, false]
    else if m == 25 then [false, true, false, false, true]
    else if m == 26 then [true, false, false, false, false]
    else if m == 27 then [false, true, false, false, false]
    else if m == 28 then [false, false, true, false, false]
    else if m == 29 then [false, false, false, true, false]
    else [false, false, false, false, true]
  }

  lemma OrbitStep(m: nat)
    requires 1 <= m <= 30
    ensures Orbit(m) == Next(Orbit(m - 1), false)
  {
  }

  lemma RunOne(a: Register, b: bool)
    ensures Run(a, [b]) == Next(a, b)
  {
    Round(a, b, []);
    assert [b] + [] == [b];
  }

  lemma {:induction false} OrbitIsRun(m: nat)
    requires m <= 30
    ensures Run(Poly(), Zeros(m)) == Orbit(m)
  {
    if m > 0 {
      OrbitIsRun(m - 1);
      RunConcat(Poly(), Zeros(m - 1), [false]);
      assert Zeros(m) == Zeros(m - 1) + [false];
      RunOne(Orbit(m - 1), false);
      OrbitStep(m);
    }
  }

  /** Two wrong bits, d apart. */
  function TwoErrors(before: nat, d: nat, after: nat): Bits
    requires d > 0
  {
    Zeros(before) + [true] + Zeros(d - 1) + [true] + Zeros(after)
  }

  /** Two wrong bits cancel exactly when they are 31 apart, the order of the polynomial. */
  lemma TwoErrorResidue(before: nat, d: nat, after: nat)
    requires 1 <= d <= 31
    ensures Residue(TwoErrors(before, d, after)) == Zeros(5) <==> d == 31
  {
    var zero := Zeros(5);
    var e := Zeros(before) + [true] + Zeros(d - 1) + [true];
    RunConcat(zero, e, Zeros(after));
    RunConcat(zero, Zeros(before) + [true] + Zeros(d - 1), [true]);
    RunConcat(zero, Zeros(before) + [true], Zeros(d - 1));
    RunConcat(zero, Zeros(before), [true]);
    ZerosStay(before);
    assert Run(zero, [true]) == Run(Step(zero, true), []) == Poly();
    OrbitIsRun(d - 1);
    LastError(d - 1);
    if Run(Run(zero, e), Zeros(after)) == zero {
      ZerosKeepNonZero(Run(zero, e), after);
    } else {
      ZerosStay(after);
    }
  }

  lemma LastError(m: nat)
    requires m <= 30
    ensures Run(Orbit(m), [true]) == Zeros(5) <==> m == 30
  {
    var a := Orbit(m);
    RunOne(a, true);
    assert Zeros(5) == [false, false, false, false, false];
  }

  /** One wrong bit is always detected; two are, unless they are bits 0 and 31 of a 32-bit input. */
  lemma DetectsTwoErrors(x: Bits32, y: Bits32, n: nat, i: nat, j: nat)
    requires i < j < n <= 32
    requires forall k :: 0 <= k < n ==> (x[k] != y[k] <==> k == i || k == j)
    ensures Crc(x, n) == Crc(y, n) <==> j - i == 31
  {
    var before, d, after := n - 1 - j, j - i, i;
    assert Xor(Sent(x, n), Sent(y, n)) == TwoErrors(before, d, after);
    TwoErrorResidue(before, d, after);
    SameCrc(x, y, n);
  }

  lemma DetectsOneError(x: Bits32, y: Bits32, n: nat, i: nat)
    requires i < n <= 32
    requires forall k :: 0 <= k < n ==> (x[k] != y[k] <==> k == i)
    ensures Crc(x, n) != Crc(y, n)
  {
    var zero := Zeros(5);
    var before := n - 1 - i;
    assert Xor(Sent(x, n), Sent(y, n)) == Zeros(before) + [true] + Zeros(i);
    SameCrc(x, y, n);
    RunConcat(zero, Zeros(before) + [true], Zeros(i));
    RunConcat(zero, Zeros(before), [true]);
    ZerosStay(before);
    assert Run(zero, [true]) == Run(Step(zero, true), []) == Poly();
    if Run(Poly(), Zeros(i)) == zero {
      ZerosKeepNonZero(Poly(), i);
    }
  }
}
