/** Known values of usb_crc16: the preset, the residual that a receiver sees, and a request the driver sends. */
module Crc16Known {
  import opened Bits
  import opened Crc16

  // ---------------------------------------------------------------- rounds on named bits

  /** A hexadecimal digit, lowest bit first. */
  function Digit(n: nat): (d: Bits)
    ensures |d| == 4
  {
    [n % 2 == 1, n / 2 % 2 == 1, n / 4 % 2 == 1, n / 8 % 2 == 1]
  }

  /** The register with these digits, highest first. */
  function Hex(d3: nat, d2: nat, d1: nat, d0: nat): Register { Digit(d0) + Digit(d1) + Digit(d2) + Digit(d3) }

  function Next(a: Register, b: bool): Register {
    var t := a[15] != b;
    [t, a[0], a[1] != t, a[2], a[3], a[4], a[5], a[6], a[7], a[8], a[9], a[10], a[11], a[12], a[13], a[14] != t]
  }

  lemma StepIsNext(a: Register, b: bool)
    ensures Step(a, b) == Next(a, b)
  {
  }

  /** The register after four rounds. */
  function Four(a: Register, b: Bits): Register
    requires |b| == 4
  {
    Next(Next(Next(Next(a, b[0]), b[1]), b[2]), b[3])
  }

  lemma OneRound(a: Register, b: bool, rest: Bits)
    ensures Run(a, [b] + rest) == Run(Next(a, b), rest)
  {
    StepIsNext(a, b);
    assert ([b] + rest)[1..] == rest;
  }

  lemma FourRounds(a: Register, b: Bits, rest: Bits)
    requires |b| == 4
    ensures Run(a, b + rest) == Run(Four(a, b), rest)
  {
    var a1 := Next(a, b[0]);
    var a2 := Next(a1, b[1]);
    OneRound(a, b[0], [b[1]] + ([b[2]] + ([b[3]] + rest)));
    OneRound(a1, b[1], [b[2]] + ([b[3]] + rest));
    OneRound(a2, b[2], [b[3]] + rest);
    OneRound(Next(a2, b[2]), b[3], rest);
    assert b + rest == [b[0]] + ([b[1]] + ([b[2]] + ([b[3]] + rest)));
  }

  /** One byte, in two halves. */
  lemma ByteRounds(a: Register, low: Bits, high: Bits)
    requires |low| == |high| == 4
    ensures Run(a, low + high) == Four(Four(a, low), high)
  {
    FourRounds(a, low, high);
    FourRounds(Four(a, low), high, []);
    assert high + [] == high;
  }

  lemma Preset()
    ensures AllOnes() == Hex(0xf, 0xf, 0xf, 0xf)
  {
  }

  // ---------------------------------------------------------------- the preset

  /** The empty message has CRC zero: the register starts at all ones, and is complemented at the end. */
  lemma EmptyMessage()
    ensures Crc([]) == Zeros(16)
  {
  }

  lemma {:induction false} SerialFirst(b: Byte, d: seq<Byte>)
    ensures Serial([b] + d) == b + Serial(d)
  {
    if d == [] {
      assert [b] + d == [b] && [b][..0] == [];
    } else {
      var n := |d| - 1;
      assert ([b] + d)[..n + 1] == [b] + d[..n];
      SerialFirst(b, d[..n]);
    }
  }

  lemma NoBits(n: nat, s: Bits)
    requires |s| == n
    ensures Xor(s, s) == Zeros(n)
  {
  }

  lemma Fromffff()
    ensures Four(Hex(0xf, 0xf, 0xf, 0xf), Digit(0)) == Hex(0xf, 0xf, 0xd, 0x2)
  {
  }

  lemma Fromffd2()
    ensures Four(Hex(0xf, 0xf, 0xd, 0x2), Digit(0)) == Hex(0xf, 0xd, 0x0, 0x2)
  {
  }

  lemma ZeroByte()
    ensures Zeros(8) == Digit(0) + Digit(0)
  {
  }

  lemma ByteOfZeros()
    ensures Run(AllOnes(), Zeros(8)) == Hex(0xf, 0xd, 0, 2)
  {
    Preset();
    ZeroByte();
    ByteRounds(AllOnes(), Digit(0), Digit(0));
    Fromffff();
    Fromffd2();
  }

  lemma NotPreset()
    ensures Hex(0xf, 0xd, 0, 2) != AllOnes()
  {
    assert !Hex(0xf, 0xd, 0, 2)[0];
  }

  /** Which is why a leading byte of zeros changes the CRC of every message. */
  lemma LeadingZeros(d: seq<Byte>)
    ensures Crc([Zeros(8)] + d) != Crc(d)
  {
    var s := Serial(d);
    var a, one := Run(AllOnes(), Zeros(8)), AllOnes();
    SerialFirst(Zeros(8), d);
    ByteOfZeros();
    NotPreset();
    RunConcat(one, Zeros(8), s);
    if Crc([Zeros(8)] + d) == Crc(d) {
      assert Not(Not(Run(a, s))) == Run(a, s) && Not(Not(Run(one, s))) == Run(one, s);
      RunLinear(a, one, s, s);
      NoBits(|s|, s);
      NoBits(16, Run(one, s));
      ZerosKeepNonZero(Xor(a, one), |s|);
      EqualByXor(a, one);
    }
  }

  // ---------------------------------------------------------------- the residual

  /** A CRC as it is sent, top bit first. */
  function Sent(crc: Register): (w: Bits)
    ensures |w| == 16
  {
    seq(16, j requires 0 <= j < 16 => crc[15 - j])
  }

  /** A register is cleared by its own bits, top bit first. */
  lemma {:induction false} ClearsItself(a: Register, w: Bits)
    requires |w| <= 16 && (forall k :: 0 <= k < 16 - |w| ==> !a[k]) && (forall j :: 0 <= j < |w| ==> a[15 - j] == w[j])
    ensures Run(a, w) == Zeros(16)
    decreases |w|
  {
    if w == [] {
      assert a == Zeros(16);
    } else {
      var a' := Step(a, w[0]);
      assert a' == [false] + a[..15];
      forall j | 0 <= j < |w| - 1
        ensures a'[15 - j] == w[1..][j]
      {
        assert a[15 - (j + 1)] == w[j + 1];
      }
      ClearsItself(a', w[1..]);
    }
  }

  lemma From0000()
    ensures Four(Hex(0x0, 0x0, 0x0, 0x0), Digit(15)) == Hex(0x0, 0x0, 0x2, 0x2)
  {
  }

  lemma From0022()
    ensures Four(Hex(0x0, 0x0, 0x2, 0x2), Digit(15)) == Hex(0x0, 0x2, 0x0, 0x2)
  {
  }

  lemma From0202()
    ensures Four(Hex(0x0, 0x2, 0x0, 0x2), Digit(15)) == Hex(0x2, 0x0, 0x0, 0x2)
  {
  }

  lemma From2002()
    ensures Four(Hex(0x2, 0x0, 0x0, 0x2), Digit(15)) == Hex(0x8, 0x0, 0x0, 0xd)
  {
  }

  lemma SixteenOnes()
    ensures Not(Zeros(16)) == Digit(15) + (Digit(15) + (Digit(15) + (Digit(15) + [])))
    ensures Zeros(16) == Hex(0, 0, 0, 0)
  {
  }

  lemma OnesRun()
    ensures Run(Zeros(16), Not(Zeros(16))) == Hex(8, 0, 0, 0xd)
  {
    var ones := Digit(15);
    SixteenOnes();
    From0000();
    From0022();
    From0202();
    From2002();
    FourRounds(Hex(0, 0, 0, 0), ones, ones + (ones + (ones + [])));
    FourRounds(Hex(0, 0, 2, 2), ones, ones + (ones + []));
    FourRounds(Hex(0, 2, 0, 2), ones, ones + []);
    FourRounds(Hex(2, 0, 0, 2), ones, []);
  }

  /** The residual of the standard. */
  function Residual(): Register { Hex(8, 0, 0, 0xd) }

  /** What the CRC of a register leaves of it. */
  lemma Leaves(a: Register)
    ensures Run(a, Sent(Not(a))) == Residual()
  {
    var own := Sent(a);
    ClearsItself(a, own);
    assert Sent(Not(a)) == Xor(own, Not(Zeros(16)));
    assert Xor(a, Zeros(16)) == a;
    RunLinear(a, Zeros(16), own, Not(Zeros(16)));
    OnesRun();
    assert Xor(Zeros(16), Residual()) == Residual();
  }

  /** A message followed by sixteen bits leaves the residual of the standard in the receiver's register exactly if the
      sixteen bits are its CRC, top bit first (section 8.3.5.2 of USB 2.0). */
  lemma ResidualExactly(d: seq<Byte>, w: Bits)
    requires |w| == 16
    ensures Run(AllOnes(), Serial(d) + w) == Residual() <==> w == Sent(Crc(d))
  {
    var a, own := Run(AllOnes(), Serial(d)), Sent(Crc(d));
    RunConcat(AllOnes(), Serial(d), w);
    Leaves(a);
    if Run(a, w) == Residual() {
      RunLinear(a, a, w, own);
      NoBits(16, a);
      NoBits(16, Residual());
      ClearedByItself(Xor(w, own));
      forall j | 0 <= j < 16
        ensures w[j] == own[j]
      {
        assert !Xor(w, own)[j];
      }
    }
  }

  // ---------------------------------------------------------------- a request

  /** A byte by its two digits. */
  function Octet(high: nat, low: nat): Byte { Digit(low) + Digit(high) }

  /** The request that gives a device address 1: 00 05 01 00 00 00 00 00. */
  function SetAddress(): (d: seq<Byte>)
    ensures |d| == 8
  {
    [Octet(0, 0), Octet(0, 5), Octet(0, 1), Octet(0, 0), Octet(0, 0), Octet(0, 0), Octet(0, 0), Octet(0, 0)]
  }

  /** One byte more of a message. */
  lemma ByteMore(d: seq<Byte>, n: nat, a: Register, low: nat, mid: Register, end: Register)
    requires n < |d| && Run(AllOnes(), Serial(d[..n])) == a && d[n] == Octet(0, low)
    requires mid == Four(a, Digit(low)) && end == Four(mid, Digit(0))
    ensures Run(AllOnes(), Serial(d[..n + 1])) == end
  {
    assert d[..n + 1][..n] == d[..n];
    RunConcat(AllOnes(), Serial(d[..n]), d[n]);
    ByteRounds(a, Digit(low), Digit(0));
  }

  lemma Fromfd02()
    ensures Four(Hex(0xf, 0xd, 0x0, 0x2), Digit(5)) == Hex(0xd, 0x0, 0x3, 0xe)
  {
  }

  lemma Fromd03e()
    ensures Four(Hex(0xd, 0x0, 0x3, 0xe), Digit(0)) == Hex(0x8, 0x3, 0xc, 0xd)
  {
  }

  lemma From83cd()
    ensures Four(Hex(0x8, 0x3, 0xc, 0xd), Digit(1)) == Hex(0x3, 0xc, 0xd, 0x0)
  {
  }

  lemma From3cd0()
    ensures Four(Hex(0x3, 0xc, 0xd, 0x0), Digit(0)) == Hex(0xc, 0xd, 0x0, 0xa)
  {
  }

  lemma Fromcd0a()
    ensures Four(Hex(0xc, 0xd, 0x0, 0xa), Digit(0)) == Hex(0xd, 0x0, 0x8, 0x8)
  {
  }

  lemma Fromd088()
    ensures Four(Hex(0xd, 0x0, 0x8, 0x8), Digit(0)) == Hex(0x8, 0x8, 0xa, 0xd)
  {
  }

  lemma From88ad()
    ensures Four(Hex(0x8, 0x8, 0xa, 0xd), Digit(0)) == Hex(0x0, 0xa, 0xe, 0x3)
  {
  }

  lemma From0ae3()
    ensures Four(Hex(0x0, 0xa, 0xe, 0x3), Digit(0)) == Hex(0xa, 0xe, 0x3, 0x0)
  {
  }

  lemma Fromae30()
    ensures Four(Hex(0xa, 0xe, 0x3, 0x0), Digit(0)) == Hex(0xe, 0x3, 0x3, 0xc)
  {
  }

  lemma Frome33c()
    ensures Four(Hex(0xe, 0x3, 0x3, 0xc), Digit(0)) == Hex(0xb, 0x3, 0xe, 0x7)
  {
  }

  lemma Fromb3e7()
    ensures Four(Hex(0xb, 0x3, 0xe, 0x7), Digit(0)) == Hex(0xb, 0xe, 0x4, 0x9)
  {
  }

  lemma Frombe49()
    ensures Four(Hex(0xb, 0xe, 0x4, 0x9), Digit(0)) == Hex(0x6, 0x4, 0xa, 0x9)
  {
  }

  lemma From64a9()
    ensures Four(Hex(0x6, 0x4, 0xa, 0x9), Digit(0)) == Hex(0x4, 0xa, 0x8, 0x4)
  {
  }

  lemma From4a84()
    ensures Four(Hex(0x4, 0xa, 0x8, 0x4), Digit(0)) == Hex(0x2, 0x8, 0x5, 0xb)
  {
  }

  lemma FirstBytes(d: seq<Byte>)
    requires d == SetAddress()
    ensures Run(AllOnes(), Serial(d[..2])) == Hex(0x8, 0x3, 0xc, 0xd)
  {
    Preset();
    assert d[..0] == [];
    Fromffff();
    Fromffd2();
    Fromfd02();
    Fromd03e();
    ByteMore(d, 0, Hex(0xf, 0xf, 0xf, 0xf), 0, Hex(0xf, 0xf, 0xd, 0x2), Hex(0xf, 0xd, 0x0, 0x2));
    ByteMore(d, 1, Hex(0xf, 0xd, 0x0, 0x2), 5, Hex(0xd, 0x0, 0x3, 0xe), Hex(0x8, 0x3, 0xc, 0xd));
  }

  lemma MiddleBytes(d: seq<Byte>)
    requires d == SetAddress()
    ensures Run(AllOnes(), Serial(d[..5])) == Hex(0xa, 0xe, 0x3, 0x0)
  {
    FirstBytes(d);
    From83cd();
    From3cd0();
    Fromcd0a();
    Fromd088();
    From88ad();
    From0ae3();
    ByteMore(d, 2, Hex(0x8, 0x3, 0xc, 0xd), 1, Hex(0x3, 0xc, 0xd, 0x0), Hex(0xc, 0xd, 0x0, 0xa));
    ByteMore(d, 3, Hex(0xc, 0xd, 0x0, 0xa), 0, Hex(0xd, 0x0, 0x8, 0x8), Hex(0x8, 0x8, 0xa, 0xd));
    ByteMore(d, 4, Hex(0x8, 0x8, 0xa, 0xd), 0, Hex(0x0, 0xa, 0xe, 0x3), Hex(0xa, 0xe, 0x3, 0x0));
  }

  lemma LastBytes(d: seq<Byte>)
    requires d == SetAddress()
    ensures Run(AllOnes(), Serial(d[..8])) == Hex(0x2, 0x8, 0x5, 0xb)
  {
    MiddleBytes(d);
    Fromae30();
    Frome33c();
    Fromb3e7();
    Frombe49();
    From64a9();
    From4a84();
    ByteMore(d, 5, Hex(0xa, 0xe, 0x3, 0x0), 0, Hex(0xe, 0x3, 0x3, 0xc), Hex(0xb, 0x3, 0xe, 0x7));
    ByteMore(d, 6, Hex(0xb, 0x3, 0xe, 0x7), 0, Hex(0xb, 0xe, 0x4, 0x9), Hex(0x6, 0x4, 0xa, 0x9));
    ByteMore(d, 7, Hex(0x6, 0x4, 0xa, 0x9), 0, Hex(0x4, 0xa, 0x8, 0x4), Hex(0x2, 0x8, 0x5, 0xb));
  }

  lemma Complement()
    ensures Not(Hex(2, 8, 5, 0xb)) == Hex(0xd, 7, 0xa, 4)
  {
  }

  /** The request gets the CRC 0xd7a4. */
  lemma SetAddressExample()
    ensures Crc(SetAddress()) == Hex(0xd, 7, 0xa, 4)
  {
    LastBytes(SetAddress());
    assert SetAddress()[..8] == SetAddress();
    Complement();
  }
}
