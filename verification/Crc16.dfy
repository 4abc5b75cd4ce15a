/** The data CRC of USB (usb_crc16 in dev/usb.c): x^16 + x^15 + x^2 + 1, bits sent lowest first. */
module Crc16 {
  import opened Bits

  /** The shift register; bit k of the C variable is element k. */
  type Register = r: Bits | |r| == 16 witness seq(16, k => false)

  /** 0x8005. */
  function Poly(): Register { seq(16, k => k == 0 || k == 2 || k == 15) }

  function AllOnes(): Register { Not(Zeros(16)) }

  /** One round: shift left; if the bit that falls out differs from the message bit, add the polynomial. */
  function Step(a: Register, b: bool): Register {
    XorIf([false] + a[..15], a[15] != b, Poly())
  }

  function Run(a: Register, bits: Bits): Register
    decreases |bits|
  {
    if bits == [] then a else Run(Step(a, bits[0]), bits[1..])
  }

  /** The bits of a message in the order they are sent. */
  function Serial(d: seq<Byte>): (r: Bits)
    ensures |r| == 8 * |d|
  {
    if d == [] then [] else Serial(d[..|d| - 1]) + d[|d| - 1]
  }

  /** The CRC of a message. */
  function Crc(d: seq<Byte>): Register { Not(Run(AllOnes(), Serial(d))) }

  lemma {:induction false} RunConcat(a: Register, x: Bits, y: Bits)
    ensures Run(a, x + y) == Run(Run(a, x), y)
    decreases |x|
  {
    if x == [] {
      assert x + y == y;
    } else {
      assert (x + y)[1..] == x[1..] + y;
      RunConcat(Step(a, x[0]), x[1..], y);
    }
  }

  lemma RunOneMore(a: Register, x: Bits, b: bool)
    ensures Run(a, x + [b]) == Step(Run(a, x), b)
  {
    RunConcat(a, x, [b]);
    assert Run(Run(a, x), [b]) == Run(Step(Run(a, x), b), []);
  }

  /** The inner loop: one byte, lowest bit first. */
  method AddByte(a0: Register, byte: Byte) returns (a: Register)
    ensures a == Run(a0, byte)
  {
    a := a0;
    var b := byte;
    for i := 0 to 8
      invariant forall k :: 0 <= k < 8 - i ==> b[k] == byte[i + k]
      invariant a == Run(a0, byte[..i])
    {
      ghost var before := a;
      var wide := [false] + a;
      var newBit := b[0];
      b := b[1..] + [false];
      var lostBit := wide[16];
      if newBit != lostBit {
        wide := Xor(wide, Poly() + [false]);
      }
      a := wide[..16];
      assert a == Step(before, newBit);
      RunOneMore(a0, byte[..i], newBit);
      assert byte[..i] + [newBit] == byte[..i + 1];
    }
    assert byte[..8] == byte;
  }

  /** usb_crc16 over the first count bytes of buffer. */
  method UsbCrc16(buffer: array<Byte>, count: nat) returns (crc: Register)
    requires count <= buffer.Length
    ensures crc == Crc(buffer[..count])
  {
    var a: Register := AllOnes();
    for n := 0 to count
      invariant a == Run(AllOnes(), Serial(buffer[..n]))
    {
      RunConcat(AllOnes(), Serial(buffer[..n]), buffer[n]);
      assert buffer[..n + 1][..n] == buffer[..n];
      a := AddByte(a, buffer[n]);
    }
    return Not(a);
  }

  // ---------------------------------------------------------------- linearity

  lemma StepLinear(a: Register, b: Register, x: bool, y: bool)
    ensures Step(Xor(a, b), x != y) == Xor(Step(a, x), Step(b, y))
  {
  }

  lemma {:induction false} RunLinear(a: Register, b: Register, x: Bits, y: Bits)
    requires |x| == |y|
    ensures Run(Xor(a, b), Xor(x, y)) == Xor(Run(a, x), Run(b, y))
    decreases |x|
  {
    if x != [] {
      StepLinear(a, b, x[0], y[0]);
      assert Xor(x, y)[1..] == Xor(x[1..], y[1..]);
      RunLinear(Step(a, x[0]), Step(b, y[0]), x[1..], y[1..]);
    }
  }

  /** What an error pattern leaves in a register that starts at zero. */
  function Residue(e: Bits): Register { Run(Zeros(16), e) }

  /** Two messages of equal length have equal CRCs exactly when their difference has residue zero. */
  lemma SameCrc(x: seq<Byte>, y: seq<Byte>)
    requires |x| == |y|
    ensures Crc(x) == Crc(y) <==> Residue(Xor(Serial(x), Serial(y))) == Zeros(16)
  {
    var a, b := Run(AllOnes(), Serial(x)), Run(AllOnes(), Serial(y));
    RunLinear(AllOnes(), AllOnes(), Serial(x), Serial(y));
    SelfXor(AllOnes());
    assert Residue(Xor(Serial(x), Serial(y))) == Xor(a, b);
    EqualByXor(a, b);
    assert Not(Not(a)) == a && Not(Not(b)) == b;
  }

  function Xor3Bytes(x: seq<Byte>, y: seq<Byte>, z: seq<Byte>): (r: seq<Byte>)
    requires |x| == |y| == |z|
    ensures |r| == |x|
  {
    seq(|x|, i requires 0 <= i < |x| => Xor(Xor(x[i], y[i]), z[i]))
  }

  lemma {:induction false} SerialXor3(x: seq<Byte>, y: seq<Byte>, z: seq<Byte>)
    requires |x| == |y| == |z|
    ensures Serial(Xor3Bytes(x, y, z)) == Xor(Xor(Serial(x), Serial(y)), Serial(z))
  {
    if x != [] {
      var n := |x| - 1;
      SerialXor3(x[..n], y[..n], z[..n]);
      assert Xor3Bytes(x, y, z)[..n] == Xor3Bytes(x[..n], y[..n], z[..n]);
    }
  }

  /** The CRC is affine: for messages of equal length, crc(x ^ y ^ z) == crc(x) ^ crc(y) ^ crc(z). */
  lemma Affine(x: seq<Byte>, y: seq<Byte>, z: seq<Byte>)
    requires |x| == |y| == |z|
    ensures Crc(Xor3Bytes(x, y, z)) == Xor(Xor(Crc(x), Crc(y)), Crc(z))
  {
    var one := AllOnes();
    SerialXor3(x, y, z);
    RunLinear(one, one, Serial(x), Serial(y));
    RunLinear(Xor(one, one), one, Xor(Serial(x), Serial(y)), Serial(z));
    assert Xor(Xor(one, one), one) == one;
    var a, b, c := Run(one, Serial(x)), Run(one, Serial(y)), Run(one, Serial(z));
    assert Not(Xor(Xor(a, b), c)) == Xor(Xor(Not(a), Not(b)), Not(c));
  }

  // ---------------------------------------------------------------- bursts

  lemma {:induction false} ZerosStay(n: nat)
    ensures Run(Zeros(16), Zeros(n)) == Zeros(16)
  {
    if n > 0 {
      ZerosStay(n - 1);
      assert Zeros(n)[1..] == Zeros(n - 1);
      assert Step(Zeros(16), false) == Zeros(16);
    }
  }

  /** A zero message bit never clears a register: the step can be undone. */
  lemma StepKeepsNonZero(a: Register)
    requires Step(a, false) == Zeros(16)
    ensures a == Zeros(16)
  {
    assert Step(a, false)[0] == a[15];
    forall k | 0 <= k < 15
      ensures !a[k]
    {
      assert Step(a, false)[k + 1] == a[k];
    }
  }

  lemma {:induction false} ZerosKeepNonZero(a: Register, n: nat)
    requires Run(a, Zeros(n)) == Zeros(16)
    ensures a == Zeros(16)
    decreases n
  {
    if n > 0 {
      assert Zeros(n)[1..] == Zeros(n - 1);
      ZerosKeepNonZero(Step(a, false), n - 1);
      StepKeepsNonZero(a);
    }
  }

  /** A register that w clears within sixteen rounds held w itself, first bit on top, and zeros below. */
  lemma {:induction false} ClearedBy(a: Register, w: Bits)
    requires |w| <= 16 && Run(a, w) == Zeros(16)
    ensures forall k :: 0 <= k < 16 - |w| ==> !a[k]
    ensures forall j :: 0 <= j < |w| ==> a[15 - j] == w[j]
    decreases |w|
  {
    if w != [] {
      var a' := Step(a, w[0]);
      ClearedBy(a', w[1..]);
      assert !a'[0];
      assert a[15] == w[0];
      forall k | 0 <= k < 15
        ensures a[k] == a'[k + 1]
      {
      }
      forall j | 1 <= j < |w|
        ensures a[15 - j] == w[j]
      {
        assert a'[15 - (j - 1)] == w[1..][j - 1];
      }
    }
  }

  lemma ClearedByItself(w: Bits)
    requires |w| <= 16 && Run(Zeros(16), w) == Zeros(16)
    ensures forall j :: 0 <= j < |w| ==> !w[j]
  {
    ClearedBy(Zeros(16), w);
    forall j | 0 <= j < |w|
      ensures !w[j]
    {
      assert Zeros(16)[15 - j] == w[j];
    }
  }

  /** No non-empty error confined to sixteen consecutive bits has residue zero. */
  lemma BurstResidue(before: nat, w: Bits, after: nat, j: nat)
    requires |w| <= 16 && j < |w| && w[j]
    ensures Residue(Zeros(before) + w + Zeros(after)) != Zeros(16)
  {
    var zero := Zeros(16);
    RunConcat(zero, Zeros(before) + w, Zeros(after));
    RunConcat(zero, Zeros(before), w);
    ZerosStay(before);
    if Run(Run(zero, w), Zeros(after)) == zero {
      ZerosKeepNonZero(Run(zero, w), after);
      ClearedByItself(w);
    }
  }

  lemma BurstShape(e: Bits, from: nat, d: nat)
    requires d < |e| && e[d] && forall k :: 0 <= k < |e| && e[k] ==> from <= k < from + 16
    ensures Residue(e) != Zeros(16)
  {
    var n := |e|;
    var to := if from + 16 < n then from + 16 else n;
    var w := e[from..to];
    assert w[d - from];
    assert e == Zeros(from) + w + Zeros(n - to);
    BurstResidue(from, w, n - to, d - from);
  }

  /** Every burst of at most sixteen bits is detected, in messages of any length. */
  lemma DetectsBursts(x: seq<Byte>, y: seq<Byte>, from: nat)
    requires |x| == |y| && x != y
    requires forall k :: 0 <= k < 8 * |x| && Serial(x)[k] != Serial(y)[k] ==> from <= k < from + 16
    ensures Crc(x) != Crc(y)
  {
    SerialInjective(x, y);
    var d :| 0 <= d < 8 * |x| && Serial(x)[d] != Serial(y)[d];
    BurstShape(Xor(Serial(x), Serial(y)), from, d);
    SameCrc(x, y);
  }

  lemma {:induction false} SerialInjective(x: seq<Byte>, y: seq<Byte>)
    requires |x| == |y| && x != y
    ensures Serial(x) != Serial(y)
  {
    var n := |x| - 1;
    if x[..n] == y[..n] {
      assert x == x[..n] + [x[n]] && y == y[..n] + [y[n]];
      assert Serial(x)[8 * n..] == x[n] && Serial(y)[8 * n..] == y[n];
    } else {
      SerialInjective(x[..n], y[..n]);
      assert Serial(x)[..8 * n] == Serial(x[..n]) && Serial(y)[..8 * n] == Serial(y[..n]);
    }
  }

  // ---------------------------------------------------------------- parity

  lemma {:induction false} OddSplit(a: Bits, b: Bits)
    ensures Odd(a + b) <==> (Odd(a) != Odd(b))
  {
    if a == [] {
      assert a + b == b;
    } else {
      assert (a + b)[1..] == a[1..] + b;
      OddSplit(a[1..], b);
    }
  }

  lemma OddSingle(b: bool)
    ensures Odd([b]) <==> b
  {
    assert [b][1..] == [];
  }

  lemma OddPoly()
    ensures Odd(Poly())
  {
    var p := Poly();
    var z5 := Zeros(12);
    assert p == ([true] + [false]) + ([true] + z5) + [true];
    OddIsCount(z5);
    CountBounds(z5);
    OddSplit(([true] + [false]) + ([true] + z5), [true]);
    OddSplit([true] + [false], [true] + z5);
    OddSplit([true], [false]);
    OddSplit([true], z5);
    OddSingle(true);
    OddSingle(false);
  }

  lemma StepParity(a: Register, b: bool)
    ensures Odd(Step(a, b)) <==> (Odd(a) != b)
  {
    assert a == a[..15] + [a[15]];
    OddSplit(a[..15], [a[15]]);
    OddSingle(a[15]);
    OddSplit([false], a[..15]);
    OddSingle(false);
    OddPoly();
    if a[15] != b {
      OddXor([false] + a[..15], Poly());
    }
  }

  lemma {:induction false} RunParity(a: Register, x: Bits)
    ensures Odd(Run(a, x)) <==> (Odd(a) != Odd(x))
    decreases |x|
  {
    if x != [] {
      StepParity(a, x[0]);
      RunParity(Step(a, x[0]), x[1..]);
    }
  }

  lemma {:induction false} OddNot(a: Bits)
    ensures Odd(Not(a)) <==> (Odd(a) != (|a| % 2 == 1))
  {
    if a != [] {
      assert Not(a)[1..] == Not(a[1..]);
      OddNot(a[1..]);
    }
  }

  lemma EvenOnes()
    ensures !Odd(AllOnes())
  {
    OddNot(Zeros(16));
    OddIsCount(Zeros(16));
    CountBounds(Zeros(16));
  }

  /** The CRC has the parity of the message, whatever its length. */
  lemma CrcParity(d: seq<Byte>)
    ensures Odd(Crc(d)) <==> Odd(Serial(d))
  {
    EvenOnes();
    RunParity(AllOnes(), Serial(d));
    OddNot(Run(AllOnes(), Serial(d)));
  }

  /** So any odd number of wrong bits is detected. */
  lemma DetectsOddErrors(x: seq<Byte>, y: seq<Byte>)
    requires |x| == |y| && Odd(Xor(Serial(x), Serial(y)))
    ensures Crc(x) != Crc(y)
  {
    CrcParity(x);
    CrcParity(y);
    OddXor(Serial(x), Serial(y));
  }
}
