/** The 22-bit Hamming code over a 256-byte block (dev/hamming.c). */
module Hamming {
  import opened Bits

  const BLOCK := 256

  /** The result codes of hamming_correct_256; Clean is the plain 0. */
  datatype Verdict = Clean | SingleBit | Ecc | MultipleBits

  // ---------------------------------------------------------------- popcount

  /** The lowest byte of a 32-bit word. */
  function LowByte(x: bv32): Byte {
    [x & 1 != 0, x & 2 != 0, x & 4 != 0, x & 8 != 0, x & 0x10 != 0, x & 0x20 != 0, x & 0x40 != 0, x & 0x80 != 0]
  }

  function Count4(x: bv32): bv32 { (x & 1) + ((x >> 1) & 1) + ((x >> 2) & 1) + ((x >> 3) & 1) }
  function Count8(x: bv32): bv32 { Count4(x) + Count4(x >> 4) }

  /** The true number of bits set in a 32-bit word, byte by byte. */
  function Ones32(x: bv32): nat {
    Count(LowByte(x)) + Count(LowByte(x >> 8)) + Count(LowByte(x >> 16)) + Count(LowByte(x >> 24))
  }

  /** x3 holds, in each of its bytes, the bit count of that byte of x. */
  predicate ByteCounts(x: bv32, x1: bv32, x2: bv32, x3: bv32) {
    && x1 == x - ((x >> 1) & 0x5555_5555)
    && x2 == (x1 & 0x3333_3333) + ((x1 >> 2) & 0x3333_3333)
    && x3 == (x2 + (x2 >> 4)) & 0x0f0f_0f0f
  }

  lemma Byte0(x: bv32, x1: bv32, x2: bv32, x3: bv32)
    requires ByteCounts(x, x1, x2, x3)
    ensures x3 & 0xff == Count8(x) <= 8
  {
  }

  lemma Byte1(x: bv32, x1: bv32, x2: bv32, x3: bv32)
    requires ByteCounts(x, x1, x2, x3)
    ensures (x3 >> 8) & 0xff == Count8(x >> 8) <= 8
  {
  }

  lemma Byte2(x: bv32, x1: bv32, x2: bv32, x3: bv32)
    requires ByteCounts(x, x1, x2, x3)
    ensures (x3 >> 16) & 0xff == Count8(x >> 16) <= 8
  {
  }

  lemma Byte3(x: bv32, x1: bv32, x2: bv32, x3: bv32)
    requires ByteCounts(x, x1, x2, x3)
    ensures x3 >> 24 == Count8(x >> 24) <= 8
  {
  }

  lemma CountOfEight(b0: bool, b1: bool, b2: bool, b3: bool, b4: bool, b5: bool, b6: bool, b7: bool)
    ensures Count([b0, b1, b2, b3, b4, b5, b6, b7]) == B(b0) + B(b1) + B(b2) + B(b3) + B(b4) + B(b5) + B(b6) + B(b7)
  {
    var low, high := [b0, b1, b2, b3], [b4, b5, b6, b7];
    assert low + high == [b0, b1, b2, b3, b4, b5, b6, b7];
    CountConcat(low, high);
    CountOfFour(b0, b1, b2, b3);
    CountOfFour(b4, b5, b6, b7);
  }

  lemma CountOfFour(b0: bool, b1: bool, b2: bool, b3: bool)
    ensures Count([b0, b1, b2, b3]) == B(b0) + B(b1) + B(b2) + B(b3)
  {
    assert [b0, b1, b2, b3][1..] == [b1, b2, b3];
    assert [b1, b2, b3][1..] == [b2, b3];
    assert [b2, b3][1..] == [b3];
    assert Count([b3]) == B(b3);
    assert Count([b2, b3]) == B(b2) + Count([b3]);
    assert Count([b1, b2, b3]) == B(b1) + Count([b2, b3]);
  }

  lemma Count4IsBits(x: bv32)
    ensures Count4(x) <= 4
    ensures Count4(x) as nat == B(x & 8 != 0) + B(x & 4 != 0) + B(x & 2 != 0) + B(x & 1 != 0)
  {
  }

  lemma Count8IsOnes(x: bv32, c: bv32)
    requires c == Count8(x)
    ensures c as nat == Count(LowByte(x))
  {
    Count4IsBits(x);
    Count4IsBits(x >> 4);
    AddCounts(Count4(x), Count4(x >> 4));
    HighNibble(x, x >> 4);
    CountOfEight(x & 1 != 0, x & 2 != 0, x & 4 != 0, x & 8 != 0, x & 0x10 != 0, x & 0x20 != 0, x & 0x40 != 0,
        x & 0x80 != 0);
  }

  lemma HighNibble(x: bv32, y: bv32)
    requires y == x >> 4
    ensures y & 8 != 0 <==> x & 0x80 != 0
    ensures y & 4 != 0 <==> x & 0x40 != 0
    ensures y & 2 != 0 <==> x & 0x20 != 0
    ensures y & 1 != 0 <==> x & 0x10 != 0
  {
  }

  lemma WordOnes(x: bv32, c0: bv32, c1: bv32, c2: bv32, c3: bv32)
    requires c0 == Count8(x) && c1 == Count8(x >> 8) && c2 == Count8(x >> 16) && c3 == Count8(x >> 24)
    ensures (c0 as nat) + (c1 as nat) + (c2 as nat) + (c3 as nat) == Ones32(x)
  {
    Count8IsOnes(x, c0);
    Count8IsOnes(x >> 8, c1);
    Count8IsOnes(x >> 16, c2);
    Count8IsOnes(x >> 24, c3);
  }

  /** Adding the four byte counts at once, as the last two lines of popcount32 do. */
  lemma FoldWords(y: bv32, z: bv32, r: bv32, s: bv32, t: bv32)
    requires y & 0xff <= 8 && (y >> 8) & 0xff <= 8 && (y >> 16) & 0xff <= 8 && y >> 24 <= 8
    requires s == (y & 0xff) + ((y >> 8) & 0xff)
    requires t == ((y >> 16) & 0xff) + (y >> 24)
    requires z == y + (y >> 8)
    requires r == (z + (z >> 16)) & 0x3f
    ensures r == s + t && s <= 16 && t <= 16
  {
  }

  lemma AddFour(r: bv32, c0: bv32, c1: bv32, c2: bv32, c3: bv32, s: bv32, t: bv32)
    requires c0 <= 8 && c1 <= 8 && c2 <= 8 && c3 <= 8
    requires s == c0 + c1 && t == c2 + c3 && s <= 16 && t <= 16 && r == s + t
    ensures r as nat == (c0 as nat) + (c1 as nat) + (c2 as nat) + (c3 as nat)
  {
    AddCounts(c0, c1);
    AddCounts(c2, c3);
    AddCounts(s, t);
  }

  lemma AddCounts(a: bv32, b: bv32)
    requires a <= 16 && b <= 16
    ensures (a + b) as nat == (a as nat) + (b as nat)
  {
  }

  method Popcount32(x0: bv32) returns (r: bv32)
    ensures r as nat == Ones32(x0)
  {
    var x := x0;
    x := x - ((x >> 1) & 0x5555_5555);
    ghost var x1 := x;
    x := (x & 0x3333_3333) + ((x >> 2) & 0x3333_3333);
    ghost var x2 := x;
    x := (x + (x >> 4)) & 0x0f0f_0f0f;
    ghost var x3 := x;
    x := x + (x >> 8);
    r := (x + (x >> 16)) & 0x3f;

    Byte0(x0, x1, x2, x3);
    Byte1(x0, x1, x2, x3);
    Byte2(x0, x1, x2, x3);
    Byte3(x0, x1, x2, x3);
    ghost var c0, c1, c2, c3 := Count8(x0), Count8(x0 >> 8), Count8(x0 >> 16), Count8(x0 >> 24);
    ghost var s, t := c0 + c1, c2 + c3;
    FoldWords(x3, x, r, s, t);
    AddFour(r, c0, c1, c2, c3, s, t);
    WordOnes(x0, c0, c1, c2, c3);
  }

  // ---------------------------------------------------------------- the code

  /** The exclusive or, over the positions i below n with f[i] set, of the w-bit numeral of i,
      or of its complement. */
  function IndexSum(f: Bits, n: nat, w: nat, even: bool): (r: Bits)
    requires n <= |f|
    ensures |r| == w
  {
    if n == 0 then Zeros(w) else XorIf(IndexSum(f, n - 1, w, even), f[n - 1], Mark(n - 1, w, even))
  }

  function Mark(i: nat, w: nat, even: bool): (r: Bits)
    ensures |r| == w
  {
    if even then Not(BitsOf(i, w)) else BitsOf(i, w)
  }

  /** Which bytes of a block have odd parity. */
  function Flags(d: seq<Byte>): (f: Bits)
    ensures |f| == |d|
  {
    if d == [] then [] else Flags(d[..|d| - 1]) + [Odd(d[|d| - 1])]
  }

  /** The exclusive or of all bytes. */
  function ColSum(d: seq<Byte>): Byte {
    if d == [] then Zeros(8) else Xor(ColSum(d[..|d| - 1]), d[|d| - 1])
  }

  /** Odd and even bits alternating, even bit first. */
  function Zip(o: Bits, e: Bits): (r: Bits)
    requires |o| == |e|
    ensures |r| == 2 * |o|
    ensures forall k :: 0 <= k < |r| ==> r[k] == if k % 2 == 0 then e[k / 2] else o[k / 2]
  {
    seq(2 * |o|, k requires 0 <= k < 2 * |o| => if k % 2 == 0 then e[k / 2] else o[k / 2])
  }

  /** Line1, Line2 and Column: the interleaved parities, the column byte padded with two zeros below. */
  function Layout(lines: Bits, column: Bits): (code: seq<Byte>)
    requires |lines| == 16 && |column| == 6
    ensures |code| == 3
  {
    [lines[8..], lines[..8], [false, false] + column]
  }

  function Parities(flags: Bits, col: Byte): (code: seq<Byte>)
    ensures |code| == 3
  {
    var n := |flags|;
    Layout(Zip(IndexSum(flags, n, 8, false), IndexSum(flags, n, 8, true)),
           Zip(IndexSum(col, 8, 3, false), IndexSum(col, 8, 3, true)))
  }

  function Inverted(code: seq<Byte>): (r: seq<Byte>)
    requires |code| == 3
    ensures |r| == 3
  {
    [Not(code[0]), Not(code[1]), Not(code[2])]
  }

  /** The code of a block: line parities over the bytes of odd parity, column parities over the column sum. */
  function Code(d: seq<Byte>): (code: seq<Byte>)
    ensures |code| == 3
  {
    Inverted(Parities(Flags(d), ColSum(d)))
  }

  function WordOf(b: Byte): bv32 {
    (if b[0] then 1 else 0) | (if b[1] then 2 else 0) | (if b[2] then 4 else 0) | (if b[3] then 8 else 0)
    | (if b[4] then 0x10 else 0) | (if b[5] then 0x20 else 0) | (if b[6] then 0x40 else 0) | (if b[7] then 0x80 else 0)
  }

  lemma WordOfByte(b: Byte, x: bv32)
    requires x == WordOf(b)
    ensures x < 256 && LowByte(x) == b
  {
  }

  lemma SmallWord(x: bv32)
    requires x < 256
    ensures x >> 8 == 0 && x >> 16 == 0 && x >> 24 == 0
  {
  }

  lemma ZeroDisplay()
    ensures Zeros(8) == [false, false, false, false, false, false, false, false]
  {
  }

  lemma Pack(x0: bv32, x1: bv32, x2: bv32, w: bv32)
    requires x0 < 256 && x1 < 256 && x2 < 256 && w == x0 | (x1 << 8) | (x2 << 16)
    ensures LowByte(w) == LowByte(x0) && LowByte(w >> 8) == LowByte(x1) && LowByte(w >> 16) == LowByte(x2)
    ensures w >> 24 == 0
  {
  }

  lemma ZeroWord()
    ensures LowByte(0) == Zeros(8)
  {
    ZeroDisplay();
  }

  lemma ZeroLowByte(x: bv32)
    requires x < 256 && LowByte(x) == Zeros(8)
    ensures x == 0
  {
    ZeroDisplay();
    assert [x & 1 != 0, x & 2 != 0, x & 4 != 0, x & 8 != 0, x & 0x10 != 0, x & 0x20 != 0, x & 0x40 != 0, x & 0x80 != 0]
        == [false, false, false, false, false, false, false, false];
  }

  lemma ZeroPack(x0: bv32, x1: bv32, x2: bv32, w: bv32)
    requires x0 < 256 && x1 < 256 && x2 < 256 && w == x0 | (x1 << 8) | (x2 << 16)
    ensures w == 0 <==> x0 == 0 && x1 == 0 && x2 == 0
  {
  }

  /** An unsigned char as a word. */
  method Widen(b: Byte) returns (x: bv32)
    ensures x < 256 && LowByte(x) == b
    ensures x == 0 <==> Count(b) == 0
  {
    x := WordOf(b);
    WordOfByte(b, x);
    CountBounds(b);
    if x == 0 {
      ZeroWord();
    } else if Count(b) == 0 {
      ZeroLowByte(x);
    }
  }

  lemma LowBit(ones: bv32)
    requires ones <= 8
    ensures ones & 1 == 1 <==> ones as nat % 2 == 1
  {
  }

  /** The test of the first loop on one byte. */
  method OddCount(b: Byte) returns (odd: bool)
    ensures odd == Odd(b)
  {
    var x := Widen(b);
    var ones := Popcount32(x);
    SmallWord(x);
    ZeroWord();
    CountBounds(b);
    CountBounds(Zeros(8));
    LowBit(ones);
    OddIsCount(b);
    odd := ones & 1 == 1;
  }

  /** A longer list of flags does not change the sum over its beginning. */
  lemma {:induction false} IndexSumPrefix(f: Bits, g: Bits, n: nat, w: nat, even: bool)
    requires n <= |f|
    ensures IndexSum(f + g, n, w, even) == IndexSum(f, n, w, even)
  {
    if n > 0 {
      IndexSumPrefix(f, g, n - 1, w, even);
      assert (f + g)[n - 1] == f[n - 1];
    }
  }

  /** One more byte. */
  lemma NextByte(d: seq<Byte>, n: nat, even: bool)
    requires n < |d|
    ensures ColSum(d[..n + 1]) == Xor(ColSum(d[..n]), d[n])
    ensures IndexSum(Flags(d[..n + 1]), n + 1, 8, even)
         == XorIf(IndexSum(Flags(d[..n]), n, 8, even), Odd(d[n]), Mark(n, 8, even))
  {
    assert d[..n + 1][..n] == d[..n];
    IndexSumPrefix(Flags(d[..n]), [Odd(d[n])], n, 8, even);
  }

  lemma FromFull8(i: nat)
    requires i < BLOCK
    ensures BitsOf(255 - i, 8) == Mark(i, 8, true)
  {
    assert Pow2(8) == 256;
    BitsFromFull(i, 8);
  }

  /** The first loop: column sum and both line parities. */
  method Lines(data: array<Byte>, off: nat) returns (columnSum: Byte, oddLine: Byte, evenLine: Byte)
    requires off + BLOCK <= data.Length
    ensures var d := data[off..off + BLOCK];
            && columnSum == ColSum(d)
            && oddLine == IndexSum(Flags(d), BLOCK, 8, false)
            && evenLine == IndexSum(Flags(d), BLOCK, 8, true)
  {
    ghost var d := data[off..off + BLOCK];
    columnSum, oddLine, evenLine := Zeros(8), Zeros(8), Zeros(8);
    for i := 0 to BLOCK
      invariant columnSum == ColSum(d[..i])
      invariant oddLine == IndexSum(Flags(d[..i]), i, 8, false)
      invariant evenLine == IndexSum(Flags(d[..i]), i, 8, true)
    {
      var b := data[off + i];
      assert b == d[i];
      NextByte(d, i, false);
      NextByte(d, i, true);
      columnSum := Xor(columnSum, b);
      var odd := OddCount(b);
      if odd {
        FromFull8(i);
        evenLine := Xor(evenLine, BitsOf(255 - i, 8));
        oddLine := Xor(oddLine, BitsOf(i, 8));
      }
    }
    assert d[..BLOCK] == d;
  }

  /** One bit to the right, and to the left, within a byte. */
  function Shr(b: Byte): Byte { b[1..] + [false] }
  function Shl(b: Byte): Byte { [false] + b[..7] }

  lemma FromFull3(i: nat)
    requires i < 8
    ensures BitsOf(7 - i, 3) == Not(BitsOf(i, 3))
  {
    assert Pow2(3) == 8;
    BitsFromFull(i, 3);
  }

  /** The numerals the column loop uses fit three bits, where 7 - i complements i. */
  lemma ColumnMark(i: nat)
    requires i < 8
    ensures BitsOf(i, 8)[..3] == BitsOf(i, 3)
    ensures BitsOf(7 - i, 8)[..3] == Not(BitsOf(i, 3))
  {
    BitsPrefix(i, 3, 8);
    BitsPrefix(7 - i, 3, 8);
    FromFull3(i);
  }

  /** One round of the column loop. */
  lemma ColumnRound(c: Byte, i: nat, odd: Byte, even: Byte)
    requires i < 8 && odd[..3] == IndexSum(c, i, 3, false) && even[..3] == IndexSum(c, i, 3, true)
    ensures (if c[i] then Xor(odd, BitsOf(i, 8)) else odd)[..3] == IndexSum(c, i + 1, 3, false)
    ensures (if c[i] then Xor(even, BitsOf(7 - i, 8)) else even)[..3] == IndexSum(c, i + 1, 3, true)
  {
    ColumnMark(i);
    if c[i] {
      PrefixXor(odd, BitsOf(i, 8));
      PrefixXor(even, BitsOf(7 - i, 8));
    }
  }

  lemma PrefixXor(a: Byte, b: Byte)
    ensures Xor(a, b)[..3] == Xor(a[..3], b[..3])
  {
  }

  /** Byte b holds the bits of a from i on. */
  predicate Lowered(b: Byte, a: Byte, i: nat) { forall k :: 0 <= k < 8 - i ==> b[k] == a[i + k] }

  lemma LowerOne(b: Byte, a: Byte, i: nat)
    requires i < 8 && Lowered(b, a, i)
    ensures b[0] == a[i] && Lowered(Shr(b), a, i + 1)
  {
    assert b[0] == a[i + 0];
  }

  /** The second loop: column parities out of the column sum. */
  method Columns(c: Byte) returns (oddColumn: Byte, evenColumn: Byte)
    ensures oddColumn[..3] == IndexSum(c, 8, 3, false)
    ensures evenColumn[..3] == IndexSum(c, 8, 3, true)
  {
    var columnSum := c;
    oddColumn, evenColumn := Zeros(8), Zeros(8);
    for i := 0 to 8
      invariant Lowered(columnSum, c, i)
      invariant oddColumn[..3] == IndexSum(c, i, 3, false)
      invariant evenColumn[..3] == IndexSum(c, i, 3, true)
    {
      ColumnRound(c, i, oddColumn, evenColumn);
      LowerOne(columnSum, c, i);
      if columnSum[0] {
        evenColumn := Xor(evenColumn, BitsOf(7 - i, 8));
        oddColumn := Xor(oddColumn, BitsOf(i, 8));
      }
      columnSum := Shr(columnSum);
    }
  }

  /** Shifts a code byte left by two and sets its two low bits to a pair of parities. */
  method PushPair(code: array<Byte>, k: nat, odd: bool, even: bool)
    requires k < code.Length
    modifies code
    ensures code[..] == old(code[..])[k := [even, odd] + old(code[k])[..6]]
  {
    code[k] := Shl(Shl(code[k]));
    if odd { code[k] := code[k][1 := true]; }
    if even { code[k] := code[k][0 := true]; }
    assert code[k] == [even, odd] + old(code[k])[..6];
  }

  /** Code byte c holds the top i pairs of the four pairs p. */
  predicate Moved(c: Byte, p: Byte, i: nat)
    requires i <= 4
  {
    && (forall k :: 0 <= k < 2 * i ==> c[k] == p[8 - 2 * i + k])
    && (forall k :: 2 * i <= k < 8 ==> !c[k])
  }

  lemma MoveOne(c: Byte, p: Byte, i: nat)
    requires i < 4 && Moved(c, p, i)
    ensures Moved([p[6 - 2 * i], p[7 - 2 * i]] + c[..6], p, i + 1)
  {
  }

  /** Byte b is byte a shifted left by i bits. */
  predicate Raised(b: Byte, a: Byte, i: nat) {
    forall k :: 0 <= k < 8 ==> b[k] == (i <= k && a[k - i])
  }

  lemma RaiseOne(b: Byte, a: Byte, i: nat)
    requires Raised(b, a, i)
    ensures Raised(Shl(b), a, i + 1)
  {
  }

  /** The pairs that round i moves are the next pairs of the layout. */
  lemma NextPairs(lo: Byte, le: Byte, co: Byte, ce: Byte, i: nat)
    requires i < 4
    ensures var t := Layout(Zip(lo, le), Zip(co[..3], ce[..3]));
            && t[0][6 - 2 * i] == le[7 - i] && t[0][7 - 2 * i] == lo[7 - i]
            && t[1][6 - 2 * i] == le[3 - i] && t[1][7 - 2 * i] == lo[3 - i]
            && t[2][6 - 2 * i] == (i < 3 && ce[2 - i]) && t[2][7 - 2 * i] == (i < 3 && co[2 - i])
  {
  }

  /** The pairs of one round. */
  method PushPairs(code: array<Byte>, ol: Byte, el: Byte, oc: Byte, ec: Byte, ghost t: seq<Byte>, ghost i: nat)
    requires code.Length == 3 == |t| && i < 4
    requires forall k :: 0 <= k < 3 ==> Moved(code[k], t[k], i)
    requires t[0][6 - 2 * i] == el[7] && t[0][7 - 2 * i] == ol[7]
    requires t[1][6 - 2 * i] == el[3] && t[1][7 - 2 * i] == ol[3]
    requires t[2][6 - 2 * i] == ec[2] && t[2][7 - 2 * i] == oc[2]
    modifies code
    ensures forall k :: 0 <= k < 3 ==> Moved(code[k], t[k], i + 1)
  {
    MoveOne(code[0], t[0], i);
    MoveOne(code[1], t[1], i);
    MoveOne(code[2], t[2], i);
    PushPair(code, 0, ol[7], el[7]);
    PushPair(code, 1, ol[3], el[3]);
    PushPair(code, 2, oc[2], ec[2]);
  }

  /** The third loop: the interleaved parities. */
  method Interleave(code: array<Byte>, lo: Byte, le: Byte, co: Byte, ce: Byte)
    requires code.Length == 3
    modifies code
    ensures code[..] == Layout(Zip(lo, le), Zip(co[..3], ce[..3]))
  {
    var oddLine, evenLine, oddColumn, evenColumn := lo, le, co, ce;
    ghost var t := Layout(Zip(lo, le), Zip(co[..3], ce[..3]));
    code[0], code[1], code[2] := Zeros(8), Zeros(8), Zeros(8);
    for i := 0 to 4
      invariant Raised(oddLine, lo, i) && Raised(evenLine, le, i)
      invariant Raised(oddColumn, co, i) && Raised(evenColumn, ce, i)
      invariant forall k :: 0 <= k < 3 ==> Moved(code[k], t[k], i)
    {
      NextPairs(lo, le, co, ce, i);
      PushPairs(code, oddLine, evenLine, oddColumn, evenColumn, t, i);
      RaiseOne(oddLine, lo, i);
      RaiseOne(evenLine, le, i);
      RaiseOne(oddColumn, co, i);
      RaiseOne(evenColumn, ce, i);
      oddLine := Shl(oddLine);
      evenLine := Shl(evenLine);
      oddColumn := Shl(oddColumn);
      evenColumn := Shl(evenColumn);
    }
    assert code[0] == t[0] && code[1] == t[1] && code[2] == t[2];
  }

  /** hamming_compute_256: the code of the block at off, written to code. */
  method Compute256(data: array<Byte>, off: nat, code: array<Byte>)
    requires off + BLOCK <= data.Length && code.Length == 3 && code != data
    modifies code
    ensures code[..] == Code(data[off..off + BLOCK])
  {
    var columnSum, oddLine, evenLine := Lines(data, off);
    var oddColumn, evenColumn := Columns(columnSum);
    Interleave(code, oddLine, evenLine, oddColumn, evenColumn);
    code[0] := Not(code[0]);
    code[1] := Not(code[1]);
    code[2] := Not(code[2]);
  }

  // ---------------------------------------------------------------- correction

  function Xor3(a: seq<Byte>, b: seq<Byte>): (r: seq<Byte>)
    requires |a| == 3 && |b| == 3
    ensures |r| == 3
  {
    [Xor(a[0], b[0]), Xor(a[1], b[1]), Xor(a[2], b[2])]
  }

  function Count3(s: seq<Byte>): nat
    requires |s| == 3
  {
    Count(s[0]) + Count(s[1]) + Count(s[2])
  }

  /** The byte index: the odd line parities, bit by bit out of the first two syndrome bytes. */
  function ByteIndex(c0: Byte, c1: Byte): Byte { [c1[1], c1[3], c1[5], c1[7], c0[1], c0[3], c0[5], c0[7]] }

  /** The bit index: the odd column parities out of the third. */
  function BitIndex(c2: Byte): (r: Bits)
    ensures |r| == 3
  {
    [c2[3], c2[5], c2[7]]
  }

  /** What the number of syndrome bits says. */
  function Classify(s: seq<Byte>): Verdict
    requires |s| == 3
  {
    var n := Count3(s);
    if n == 0 then Clean else if n == 11 then SingleBit else if n == 1 then Ecc else MultipleBits
  }

  /** The block after hamming_correct_256, as a function of the syndrome. */
  function Correct(d: seq<Byte>, s: seq<Byte>): (r: seq<Byte>)
    requires |d| == BLOCK && |s| == 3
    ensures |r| == BLOCK
  {
    assert Pow2(8) == BLOCK && Pow2(3) == 8;
    if Classify(s) == SingleBit then
      var i := Number(ByteIndex(s[0], s[1]));
      d[i := Xor(d[i], OneHot(8, Number(BitIndex(s[2]))))]
    else d
  }

  /** correction_code32: whether it is zero, and how many bits it has. */
  method CountSyndrome(c0: Byte, c1: Byte, c2: Byte) returns (zero: bool, ones: bv32)
    ensures zero <==> Count3([c0, c1, c2]) == 0
    ensures ones as nat == Count3([c0, c1, c2])
  {
    var x0 := Widen(c0);
    var x1 := Widen(c1);
    var x2 := Widen(c2);
    var word := x0 | (x1 << 8) | (x2 << 16);
    ones := Popcount32(word);
    zero := word == 0;
    Pack(x0, x1, x2, word);
    ZeroPack(x0, x1, x2, word);
    ZeroWord();
    CountBounds(Zeros(8));
  }

  /** The branches of hamming_correct_256. */
  method Judge(c0: Byte, c1: Byte, c2: Byte) returns (v: Verdict)
    ensures v == Classify([c0, c1, c2])
  {
    var zero, ones := CountSyndrome(c0, c1, c2);
    if zero {
      return Clean;
    }
    if ones == 11 {
      return SingleBit;
    }
    if ones == 1 {
      return Ecc;
    }
    return MultipleBits;
  }

  /** hamming_correct_256 on the block at off. The original code is at origOff of orig, which may be the same buffer. */
  method Correct256(data: array<Byte>, off: nat, orig: array<Byte>, origOff: nat,
      computed: array<Byte>) returns (v: Verdict)
    requires off + BLOCK <= data.Length && origOff + 3 <= orig.Length && computed.Length == 3
    modifies data
    ensures var s := Xor3(old(computed[..]), old(orig[origOff..origOff + 3]));
            v == Classify(s)
            && data[..] == old(data[..off]) + Correct(old(data[off..off + BLOCK]), s) + old(data[off + BLOCK..])
  {
    var c0 := Xor(computed[0], orig[origOff]);
    var c1 := Xor(computed[1], orig[origOff + 1]);
    var c2 := Xor(computed[2], orig[origOff + 2]);
    assert Xor3(computed[..], orig[origOff..origOff + 3]) == [c0, c1, c2];
    v := Judge(c0, c1, c2);
    if v == SingleBit {
      assert Pow2(8) == BLOCK && Pow2(3) == 8;
      var i := Number(ByteIndex(c0, c1));
      data[off + i] := Xor(data[off + i], OneHot(8, Number(BitIndex(c2))));
    } else {
      assert data[..] == data[..off] + data[off..off + BLOCK] + data[off + BLOCK..];
    }
  }
}
