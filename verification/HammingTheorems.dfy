/** What the Hamming code of dev/hamming.c guarantees, for every block and every error. */
module HammingTheorems {
  import opened Bits
  import opened Hamming

  // ---------------------------------------------------------------- errors and their weight

  /** The bits in which two blocks differ. */
  function Difference(a: seq<Byte>, b: seq<Byte>): (e: seq<Byte>)
    requires |a| == |b|
    ensures |e| == |a| && forall i :: 0 <= i < |a| ==> e[i] == Xor(a[i], b[i])
  {
    seq(|a|, i requires 0 <= i < |a| => Xor(a[i], b[i]))
  }

  /** The number of bits set in a block. */
  function Weight(e: seq<Byte>): nat {
    if e == [] then 0 else Weight(e[..|e| - 1]) + Count(e[|e| - 1])
  }

  /** The number of bits in which two blocks differ. */
  function Distance(a: seq<Byte>, b: seq<Byte>): nat
    requires |a| == |b|
  {
    Weight(Difference(a, b))
  }

  // ---------------------------------------------------------------- everything is linear

  lemma {:induction false} FlagsLinear(a: seq<Byte>, b: seq<Byte>)
    requires |a| == |b|
    ensures Flags(Difference(a, b)) == Xor(Flags(a), Flags(b))
  {
    if a != [] {
      var n := |a| - 1;
      assert Difference(a, b)[..n] == Difference(a[..n], b[..n]);
      FlagsLinear(a[..n], b[..n]);
      OddXor(a[n], b[n]);
    }
  }

  lemma {:induction false} ColSumLinear(a: seq<Byte>, b: seq<Byte>)
    requires |a| == |b|
    ensures ColSum(Difference(a, b)) == Xor(ColSum(a), ColSum(b))
  {
    if a != [] {
      var n := |a| - 1;
      assert Difference(a, b)[..n] == Difference(a[..n], b[..n]);
      ColSumLinear(a[..n], b[..n]);
    }
  }

  lemma {:induction false} IndexSumLinear(f: Bits, g: Bits, n: nat, w: nat, even: bool)
    requires |f| == |g| && n <= |f|
    ensures IndexSum(Xor(f, g), n, w, even) == Xor(IndexSum(f, n, w, even), IndexSum(g, n, w, even))
  {
    if n > 0 {
      IndexSumLinear(f, g, n - 1, w, even);
    }
  }

  lemma ParitiesLinear(f: Bits, g: Bits, c: Byte, d: Byte)
    requires |f| == |g|
    ensures Parities(Xor(f, g), Xor(c, d)) == Xor3(Parities(f, c), Parities(g, d))
  {
    var n := |f|;
    IndexSumLinear(f, g, n, 8, false);
    IndexSumLinear(f, g, n, 8, true);
    IndexSumLinear(c, d, 8, 3, false);
    IndexSumLinear(c, d, 8, 3, true);
    var x, y, z := Parities(f, c), Parities(g, d), Parities(Xor(f, g), Xor(c, d));
    assert z[0] == Xor(x[0], y[0]);
    assert z[1] == Xor(x[1], y[1]);
    assert z[2] == Xor(x[2], y[2]);
  }

  /** The parities of an error pattern. */
  function ErrorParities(e: seq<Byte>): (s: seq<Byte>)
    ensures |s| == 3
  {
    Parities(Flags(e), ColSum(e))
  }

  /** The syndrome is the parities of the data error plus the error in the code. */
  lemma SyndromeOf(d: seq<Byte>, d': seq<Byte>, c: seq<Byte>)
    requires |d| == |d'| && |c| == 3
    ensures Xor3(Code(d'), c) == Xor3(ErrorParities(Difference(d, d')), Xor3(Code(d), c))
  {
    FlagsLinear(d, d');
    ColSumLinear(d, d');
    ParitiesLinear(Flags(d), Flags(d'), ColSum(d), ColSum(d'));
    var e := ErrorParities(Difference(d, d'));
    var p, q := Parities(Flags(d), ColSum(d)), Parities(Flags(d'), ColSum(d'));
    forall k | 0 <= k < 3
      ensures Xor(Not(q[k]), c[k]) == Xor(e[k], Xor(Not(p[k]), c[k]))
    {
      assert e[k] == Xor(p[k], q[k]);
    }
  }

  // ---------------------------------------------------------------- parity of the error

  lemma {:induction false} OddAppend(f: Bits, b: bool)
    ensures Odd(f + [b]) <==> (Odd(f) != b)
  {
    if f != [] {
      assert (f + [b])[1..] == f[1..] + [b];
      OddAppend(f[1..], b);
    }
  }

  /** The even sum is the odd sum, complemented when an odd number of positions is flagged. */
  lemma {:induction false} EvenHalf(f: Bits, n: nat, w: nat)
    requires n <= |f|
    ensures IndexSum(f, n, w, true) == if Odd(f[..n]) then Not(IndexSum(f, n, w, false)) else IndexSum(f, n, w, false)
  {
    if n > 0 {
      EvenHalf(f, n - 1, w);
      assert f[..n] == f[..n - 1] + [f[n - 1]];
      OddAppend(f[..n - 1], f[n - 1]);
    }
  }

  /** Both parities of an error pattern say whether an odd number of bits is wrong. */
  lemma {:induction false} ParityOfWeight(e: seq<Byte>)
    ensures Odd(Flags(e)) <==> Weight(e) % 2 == 1
    ensures Odd(ColSum(e)) <==> Weight(e) % 2 == 1
  {
    if e == [] {
      OddIsCount(Zeros(8));
      CountBounds(Zeros(8));
    } else {
      var n := |e| - 1;
      ParityOfWeight(e[..n]);
      OddIsCount(e[n]);
      OddAppend(Flags(e[..n]), Odd(e[n]));
      OddXor(ColSum(e[..n]), e[n]);
    }
  }

  lemma EvenWhole(f: Bits, w: nat)
    ensures IndexSum(f, |f|, w, true)
         == if Odd(f) then Not(IndexSum(f, |f|, w, false)) else IndexSum(f, |f|, w, false)
  {
    EvenHalf(f, |f|, w);
    assert f[..|f|] == f;
  }

  /** Which bytes are wrong in an odd number of bits, and which bits in an odd number of bytes,
      each summed into one numeral. */
  function LineSyndrome(e: seq<Byte>): Byte { IndexSum(Flags(e), |e|, 8, false) }
  function ColumnSyndrome(e: seq<Byte>): (c: Bits)
    ensures |c| == 3
  {
    IndexSum(ColSum(e), 8, 3, false)
  }

  /** So the halves of the syndrome are pairwise equal, or pairwise complementary. */
  lemma Halves(e: seq<Byte>)
    ensures var o, c := LineSyndrome(e), ColumnSyndrome(e);
            ErrorParities(e) == if Weight(e) % 2 == 1 then Layout(Zip(o, Not(o)), Zip(c, Not(c)))
                                else Layout(Zip(o, o), Zip(c, c))
  {
    ParityOfWeight(e);
    EvenWhole(Flags(e), 8);
    EvenWhole(ColSum(e), 3);
  }

  // ---------------------------------------------------------------- counting syndrome bits

  lemma {:induction false} CountZipNot(o: Bits)
    ensures Count(Zip(o, Not(o))) == |o|
  {
    if o != [] {
      CountZipNot(o[1..]);
      assert Zip(o, Not(o)) == [!o[0], o[0]] + Zip(o[1..], Not(o[1..]));
      CountConcat([!o[0], o[0]], Zip(o[1..], Not(o[1..])));
      CountPair(!o[0], o[0]);
    }
  }

  lemma {:induction false} CountZipSame(o: Bits)
    ensures Count(Zip(o, o)) == 2 * Count(o)
  {
    if o != [] {
      CountZipSame(o[1..]);
      assert Zip(o, o) == [o[0], o[0]] + Zip(o[1..], o[1..]);
      CountConcat([o[0], o[0]], Zip(o[1..], o[1..]));
      CountPair(o[0], o[0]);
    }
  }

  lemma CountPair(a: bool, b: bool)
    ensures Count([a, b]) == B(a) + B(b)
  {
    assert [a, b][1..] == [b];
    assert Count([b]) == B(b);
  }

  lemma CountLayout(lines: Bits, column: Bits)
    requires |lines| == 16 && |column| == 6
    ensures Count3(Layout(lines, column)) == Count(lines) + Count(column)
  {
    assert lines == lines[..8] + lines[8..];
    CountConcat(lines[..8], lines[8..]);
    CountConcat([false, false], column);
    CountPair(false, false);
  }

  function Join(a: Bits, b: Bits): Bits { a + b }

  /** A code as one word of 24 bits. */
  function Flat(s: seq<Byte>): (r: Bits)
    requires |s| == 3
    ensures |r| == 24
  {
    Join(Join(s[0], s[1]), s[2])
  }

  lemma CountFlat(s: seq<Byte>)
    requires |s| == 3
    ensures Count(Flat(s)) == Count3(s)
  {
    CountConcat(Join(s[0], s[1]), s[2]);
    CountConcat(s[0], s[1]);
  }

  /** One wrong code bit changes the number of syndrome bits by one. */
  lemma CountWithOneMore(s: seq<Byte>, x: seq<Byte>)
    requires |s| == 3 && |x| == 3 && Count3(x) == 1
    ensures Count3(Xor3(s, x)) == Count3(s) + 1 || Count3(Xor3(s, x)) == Count3(s) - 1
  {
    CountFlat(x);
    var k := CountOne(Flat(x));
    assert Flat(Xor3(s, x)) == Xor(Flat(s), Flat(x));
    CountFlip(Flat(s), k);
    CountFlat(s);
    CountFlat(Xor3(s, x));
  }

  lemma NoMore(s: seq<Byte>, x: seq<Byte>)
    requires |s| == 3 && |x| == 3 && Count3(x) == 0
    ensures Xor3(s, x) == s && Xor3(x, s) == s
  {
    CountBounds(x[0]);
    CountBounds(x[1]);
    CountBounds(x[2]);
    assert Xor(s[0], x[0]) == s[0] && Xor(s[1], x[1]) == s[1] && Xor(s[2], x[2]) == s[2];
    assert Xor(x[0], s[0]) == s[0] && Xor(x[1], s[1]) == s[1] && Xor(x[2], s[2]) == s[2];
  }

  /** An odd error sets exactly eleven syndrome bits; an even one twice as many as its sums have. */
  lemma CountErrorParities(e: seq<Byte>)
    ensures Count3(ErrorParities(e))
         == if Weight(e) % 2 == 1 then 11 else 2 * Count(LineSyndrome(e)) + 2 * Count(ColumnSyndrome(e))
  {
    var o, c := LineSyndrome(e), ColumnSyndrome(e);
    Halves(e);
    if Weight(e) % 2 == 1 {
      CountZipNot(o);
      CountZipNot(c);
      CountLayout(Zip(o, Not(o)), Zip(c, Not(c)));
    } else {
      CountZipSame(o);
      CountZipSame(c);
      CountLayout(Zip(o, o), Zip(c, c));
    }
  }

  // ---------------------------------------------------------------- exact classification

  lemma CancelSelf(c: seq<Byte>)
    requires |c| == 3
    ensures Count3(Xor3(c, c)) == 0
  {
    CountBounds(Xor(c[0], c[0]));
    CountBounds(Xor(c[1], c[1]));
    CountBounds(Xor(c[2], c[2]));
  }

  /** With the code intact, the syndrome depends on the data error only. */
  lemma IntactCode(d: seq<Byte>, d': seq<Byte>)
    requires |d| == |d'|
    ensures Xor3(Code(d'), Code(d)) == ErrorParities(Difference(d, d'))
  {
    SyndromeOf(d, d', Code(d));
    CancelSelf(Code(d));
    NoMore(ErrorParities(Difference(d, d')), Xor3(Code(d), Code(d)));
  }

  lemma OddErrors(e: seq<Byte>)
    requires Weight(e) % 2 == 1
    ensures Classify(ErrorParities(e)) == SingleBit
  {
    CountErrorParities(e);
  }

  lemma EvenErrors(e: seq<Byte>)
    requires Weight(e) % 2 == 0
    ensures Classify(ErrorParities(e))
         == if LineSyndrome(e) == Zeros(8) && ColumnSyndrome(e) == Zeros(3) then Clean else MultipleBits
  {
    CountErrorParities(e);
    CountBounds(LineSyndrome(e));
    CountBounds(ColumnSyndrome(e));
  }

  /** Data errors alone: an odd number of wrong bits is always taken for a single one, an even
      number is never, and then the block is left as it is; it goes unnoticed exactly when the
      positions of the wrong bytes and those of the wrong bits both cancel. */
  lemma ExactClassification(d: seq<Byte>, d': seq<Byte>)
    requires |d| == BLOCK && |d'| == BLOCK
    ensures var s := Xor3(Code(d'), Code(d));
            var e := Difference(d, d');
            if Distance(d, d') % 2 == 1 then Classify(s) == SingleBit
            else
              && Correct(d', s) == d'
              && Classify(s)
                 == if LineSyndrome(e) == Zeros(8) && ColumnSyndrome(e) == Zeros(3) then Clean else MultipleBits
  {
    var e := Difference(d, d');
    IntactCode(d, d');
    if Weight(e) % 2 == 1 {
      OddErrors(e);
    } else {
      EvenErrors(e);
    }
  }

  // ---------------------------------------------------------------- one and two wrong bits

  lemma {:induction false} WeightZero(e: seq<Byte>)
    requires Weight(e) == 0
    ensures Flags(e) == Zeros(|e|) && ColSum(e) == Zeros(8)
    ensures forall i :: 0 <= i < |e| ==> e[i] == Zeros(8)
  {
    if e != [] {
      var n := |e| - 1;
      WeightZero(e[..n]);
      CountBounds(e[n]);
      OddIsCount(e[n]);
    }
  }

  lemma XorNothing(a: Byte)
    ensures Xor(a, Zeros(8)) == a && Xor(Zeros(8), a) == a
  {
  }

  /** The single wrong bit of block e is in byte k. */
  predicate OnlyByte(e: seq<Byte>, k: nat) {
    && k < |e| && Count(e[k]) == 1 && ColSum(e) == e[k] && Flags(e) == OneHot(|e|, k)
    && forall i :: 0 <= i < |e| && i != k ==> e[i] == Zeros(8)
  }

  lemma OnlyByteLater(e: seq<Byte>, n: nat, k: nat)
    requires |e| == n + 1 && OnlyByte(e[..n], k) && e[n] == Zeros(8)
    ensures OnlyByte(e, k)
  {
    OddIsCount(e[n]);
    CountBounds(e[n]);
    XorNothing(ColSum(e[..n]));
  }

  lemma OnlyByteLast(e: seq<Byte>, n: nat)
    requires |e| == n + 1 && Weight(e[..n]) == 0 && Count(e[n]) == 1
    ensures OnlyByte(e, n)
  {
    WeightZero(e[..n]);
    OddIsCount(e[n]);
    XorNothing(e[n]);
  }

  lemma {:induction false} WeightOne(e: seq<Byte>) returns (k: nat)
    requires Weight(e) == 1
    ensures OnlyByte(e, k)
  {
    var n := |e| - 1;
    if Count(e[n]) == 0 {
      CountBounds(e[n]);
      k := WeightOne(e[..n]);
      OnlyByteLater(e, n, k);
    } else {
      k := n;
      OnlyByteLast(e, n);
    }
  }

  predicate TwoBytes(e: seq<Byte>, j: nat, k: nat) {
    j < k < |e| && Flags(e) == Xor(OneHot(|e|, j), OneHot(|e|, k))
  }

  lemma LastWrongByte(e: seq<Byte>, n: nat, j: nat)
    requires |e| == n + 1 && OnlyByte(e[..n], j) && Count(e[n]) == 1
    ensures TwoBytes(e, j, n)
  {
    OddIsCount(e[n]);
    assert Flags(e) == Flags(e[..n]) + [true];
  }

  lemma LastRightByte(e: seq<Byte>, n: nat, j: nat, k: nat)
    requires |e| == n + 1 && e[n] == Zeros(8)
    ensures ColSum(e) == ColSum(e[..n])
    ensures TwoBytes(e[..n], j, k) ==> TwoBytes(e, j, k)
  {
    OddIsCount(e[n]);
    CountBounds(e[n]);
    XorNothing(ColSum(e[..n]));
    assert Flags(e) == Flags(e[..n]) + [false];
  }

  /** Two wrong bits are in two bytes, or in one byte whose parity stays even. */
  lemma {:induction false} WeightTwo(e: seq<Byte>) returns (j: nat, k: nat)
    requires Weight(e) == 2
    ensures TwoBytes(e, j, k) || Count(ColSum(e)) == 2
  {
    var n := |e| - 1;
    if Count(e[n]) == 0 {
      CountBounds(e[n]);
      j, k := WeightTwo(e[..n]);
      LastRightByte(e, n, j, k);
    } else if Count(e[n]) == 1 {
      j := WeightOne(e[..n]);
      k := n;
      LastWrongByte(e, n, j);
    } else {
      j, k := 0, 0;
      WeightZero(e[..n]);
      XorNothing(e[n]);
    }
  }

  lemma {:induction false} IndexSumNone(f: Bits, n: nat, w: nat)
    requires n <= |f| && forall i :: 0 <= i < n ==> !f[i]
    ensures IndexSum(f, n, w, false) == Zeros(w)
  {
    if n > 0 {
      IndexSumNone(f, n - 1, w);
    }
  }

  lemma {:induction false} IndexSumOne(m: nat, k: nat, n: nat, w: nat)
    requires k < n <= m
    ensures IndexSum(OneHot(m, k), n, w, false) == BitsOf(k, w)
  {
    if k == n - 1 {
      IndexSumNone(OneHot(m, k), n - 1, w);
      assert Xor(Zeros(w), BitsOf(k, w)) == BitsOf(k, w);
    } else {
      IndexSumOne(m, k, n - 1, w);
    }
  }

  lemma NumeralsDiffer(j: nat, k: nat, w: nat)
    requires j < k < Pow2(w)
    ensures Xor(BitsOf(j, w), BitsOf(k, w)) != Zeros(w)
  {
    NumberOfBits(j, w);
    NumberOfBits(k, w);
    var i :| 0 <= i < w && BitsOf(j, w)[i] != BitsOf(k, w)[i];
    assert Xor(BitsOf(j, w), BitsOf(k, w))[i] != Zeros(w)[i];
  }

  lemma TwoPositions(m: nat, j: nat, k: nat, w: nat)
    requires j < k < m <= Pow2(w)
    ensures IndexSum(Xor(OneHot(m, j), OneHot(m, k)), m, w, false) != Zeros(w)
  {
    IndexSumLinear(OneHot(m, j), OneHot(m, k), m, w, false);
    IndexSumOne(m, j, m, w);
    IndexSumOne(m, k, m, w);
    NumeralsDiffer(j, k, w);
  }

  lemma {:induction false} CountTwo(a: Bits) returns (j: nat, k: nat)
    requires Count(a) == 2
    ensures j < k < |a| && a == Xor(OneHot(|a|, j), OneHot(|a|, k))
  {
    assert a == [a[0]] + a[1..];
    if a[0] {
      var i := CountOne(a[1..]);
      j, k := 0, i + 1;
    } else {
      j, k := CountTwo(a[1..]);
      j, k := j + 1, k + 1;
    }
  }

  /** Two wrong data bits never cancel. */
  lemma TwoErrorsShow(e: seq<Byte>)
    requires |e| == BLOCK && Weight(e) == 2
    ensures Classify(ErrorParities(e)) == MultipleBits
  {
    CountErrorParities(e);
    CountBounds(LineSyndrome(e));
    CountBounds(ColumnSyndrome(e));
    assert Pow2(3) == 8 && Pow2(8) == 256;
    var j, k := WeightTwo(e);
    if Count(ColSum(e)) == 2 {
      j, k := CountTwo(ColSum(e));
      TwoPositions(8, j, k, 3);
    } else {
      TwoPositions(BLOCK, j, k, 8);
    }
  }

  /** The syndrome of a single wrong data bit spells its position. */
  lemma Decode(o: Byte, c: Bits)
    requires |c| == 3
    ensures var s := Layout(Zip(o, Not(o)), Zip(c, Not(c))); ByteIndex(s[0], s[1]) == o && BitIndex(s[2]) == c
  {
    var s := Layout(Zip(o, Not(o)), Zip(c, Not(c)));
    assert forall k :: 0 <= k < 8 ==> ByteIndex(s[0], s[1])[k] == o[k];
    assert forall k :: 0 <= k < 3 ==> BitIndex(s[2])[k] == c[k];
  }

  lemma SameByte(a: Byte, b: Byte)
    requires Xor(a, b) == Zeros(8)
    ensures a == b
  {
    forall j | 0 <= j < 8
      ensures a[j] == b[j]
    {
      assert Xor(a, b)[j] == Zeros(8)[j];
    }
  }

  lemma SameBlock(d: seq<Byte>, d': seq<Byte>)
    requires |d| == |d'| && Distance(d, d') == 0
    ensures d == d'
  {
    WeightZero(Difference(d, d'));
    forall i | 0 <= i < |d|
      ensures d[i] == d'[i]
    {
      SameByte(d[i], d'[i]);
    }
  }

  lemma Numerals(k: nat, b: nat)
    requires k < BLOCK && b < 8
    ensures Number(BitsOf(k, 8)) == k && Number(BitsOf(b, 3)) == b
  {
    assert Pow2(3) == 8 && Pow2(8) == 256;
    NumberOfBits(k, 8);
    NumberOfBits(b, 3);
  }

  /** The syndrome of a single wrong bit points at it. */
  lemma PointsAt(e: seq<Byte>, k: nat, b: nat)
    requires |e| == BLOCK && Weight(e) == 1 && OnlyByte(e, k) && b < 8 && e[k] == OneHot(8, b)
    ensures var s := ErrorParities(e); Number(ByteIndex(s[0], s[1])) == k && Number(BitIndex(s[2])) == b
  {
    Halves(e);
    IndexSumOne(BLOCK, k, BLOCK, 8);
    IndexSumOne(8, b, 8, 3);
    Decode(BitsOf(k, 8), BitsOf(b, 3));
    Numerals(k, b);
  }

  /** A single wrong data bit, with the code intact, is put right. */
  lemma SingleCorrected(d: seq<Byte>, d': seq<Byte>)
    requires |d| == BLOCK && |d'| == BLOCK && Distance(d, d') == 1
    ensures var s := ErrorParities(Difference(d, d')); Classify(s) == SingleBit && Correct(d', s) == d
  {
    var e := Difference(d, d');
    CountErrorParities(e);
    var k := WeightOne(e);
    var b := CountOne(e[k]);
    PointsAt(e, k, b);
    assert Xor(d'[k], Xor(d[k], d'[k])) == d[k];
    forall i | 0 <= i < BLOCK && i != k
      ensures d'[i] == d[i]
    {
      SameByte(d[i], d'[i]);
    }
  }

  // ---------------------------------------------------------------- the guarantee

  /** The number of bits in which a stored code differs from the code of a block. */
  function CodeDistance(d: seq<Byte>, c: seq<Byte>): nat
    requires |c| == 3
  {
    Count3(Xor3(Code(d), c))
  }

  lemma OneDataError(d: seq<Byte>, d': seq<Byte>, c: seq<Byte>)
    requires |d| == BLOCK && |d'| == BLOCK && |c| == 3 && Distance(d, d') == 1 && CodeDistance(d, c) == 0
    ensures var s := Xor3(Code(d'), c); Classify(s) == SingleBit && Correct(d', s) == d
  {
    SyndromeOf(d, d', c);
    SingleCorrected(d, d');
    NoMore(ErrorParities(Difference(d, d')), Xor3(Code(d), c));
  }

  lemma OneErrorEach(d: seq<Byte>, d': seq<Byte>, c: seq<Byte>)
    requires |d| == BLOCK && |d'| == BLOCK && |c| == 3 && Distance(d, d') == 1 && CodeDistance(d, c) == 1
    ensures Classify(Xor3(Code(d'), c)) == MultipleBits
  {
    SyndromeOf(d, d', c);
    CountErrorParities(Difference(d, d'));
    CountWithOneMore(ErrorParities(Difference(d, d')), Xor3(Code(d), c));
  }

  lemma TwoDataErrors(d: seq<Byte>, d': seq<Byte>, c: seq<Byte>)
    requires |d| == BLOCK && |d'| == BLOCK && |c| == 3 && Distance(d, d') == 2 && CodeDistance(d, c) == 0
    ensures Classify(Xor3(Code(d'), c)) == MultipleBits
  {
    SyndromeOf(d, d', c);
    NoMore(ErrorParities(Difference(d, d')), Xor3(Code(d), c));
    TwoErrorsShow(Difference(d, d'));
  }

  /** Single-error correction, double-error detection, over the 2048 data bits and the 24 stored
      code bits together: d was written with its code, d' and c are read back. */
  lemma SecDed(d: seq<Byte>, d': seq<Byte>, c: seq<Byte>)
    requires |d| == BLOCK && |d'| == BLOCK && |c| == 3
    ensures var s := Xor3(Code(d'), c);
            var errors := Distance(d, d') + CodeDistance(d, c);
            && (errors == 0 ==> Classify(s) == Clean && Correct(d', s) == d)
            && (errors == 1 ==> Classify(s) == (if Distance(d, d') == 1 then SingleBit else Ecc) && Correct(d', s) == d)
            && (errors == 2 ==> Classify(s) == MultipleBits && Correct(d', s) == d')
  {
    if Distance(d, d') == 0 {
      SameBlock(d, d');
    } else if Distance(d, d') == 1 && CodeDistance(d, c) == 0 {
      OneDataError(d, d', c);
    } else if Distance(d, d') == 1 && CodeDistance(d, c) == 1 {
      OneErrorEach(d, d', c);
    } else if Distance(d, d') == 2 && CodeDistance(d, c) == 0 {
      TwoDataErrors(d, d', c);
    }
  }
}
