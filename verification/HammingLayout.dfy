/** What each bit of the code is: the layout that dev/hamming.c describes, bit by bit. */
module HammingLayout {
  import opened Bits
  import opened Hamming

  /** Bit m of the number i. */
  predicate BitOf(i: nat, m: nat) { if m == 0 then i % 2 == 1 else BitOf(i / 2, m - 1) }

  lemma {:induction false} BitOfNumeral(i: nat, w: nat, m: nat)
    requires m < w
    ensures BitsOf(i, w)[m] == BitOf(i, m)
  {
    if m > 0 {
      BitOfNumeral(i / 2, w - 1, m - 1);
    }
  }

  /** The parity of the flags at the places below n whose bit m is as given. */
  function ParityAt(f: Bits, n: nat, m: nat, one: bool): bool
    requires n <= |f|
  {
    if n == 0 then false else ParityAt(f, n - 1, m, one) != (f[n - 1] && BitOf(n - 1, m) == one)
  }

  lemma {:induction false} SumIsParity(f: Bits, n: nat, w: nat, m: nat, even: bool)
    requires n <= |f| && m < w
    ensures IndexSum(f, n, w, even)[m] == ParityAt(f, n, m, !even)
  {
    if n > 0 {
      SumIsParity(f, n - 1, w, m, even);
      BitOfNumeral(n - 1, w, m);
    }
  }

  // ---------------------------------------------------------------- lines

  /** The parity of all bits in the bytes whose number has bit m as given. */
  function LineParity(d: seq<Byte>, m: nat, one: bool): bool {
    if d == [] then false
    else LineParity(d[..|d| - 1], m, one) != (BitOf(|d| - 1, m) == one && Odd(d[|d| - 1]))
  }

  lemma {:induction false} ParityPrefix(f: Bits, g: Bits, n: nat, m: nat, one: bool)
    requires n <= |f|
    ensures ParityAt(f + g, n, m, one) == ParityAt(f, n, m, one)
  {
    if n > 0 {
      ParityPrefix(f, g, n - 1, m, one);
    }
  }

  lemma {:induction false} LinesOfFlags(d: seq<Byte>, m: nat, one: bool)
    ensures ParityAt(Flags(d), |d|, m, one) == LineParity(d, m, one)
  {
    if d != [] {
      var n := |d| - 1;
      LinesOfFlags(d[..n], m, one);
      ParityPrefix(Flags(d[..n]), [Odd(d[n])], n, m, one);
    }
  }

  // ---------------------------------------------------------------- columns

  /** The parity of the bits of all bytes whose place in the byte has bit m as given. */
  function ColumnParity(d: seq<Byte>, m: nat, one: bool): bool {
    if d == [] then false else ColumnParity(d[..|d| - 1], m, one) != ParityAt(d[|d| - 1], 8, m, one)
  }

  lemma {:induction false} ParityLinear(f: Bits, g: Bits, n: nat, m: nat, one: bool)
    requires |f| == |g| && n <= |f|
    ensures ParityAt(Xor(f, g), n, m, one) == (ParityAt(f, n, m, one) != ParityAt(g, n, m, one))
  {
    if n > 0 {
      ParityLinear(f, g, n - 1, m, one);
    }
  }

  lemma {:induction false} ParityOfZeros(w: nat, n: nat, m: nat, one: bool)
    requires n <= w
    ensures !ParityAt(Zeros(w), n, m, one)
  {
    if n > 0 {
      ParityOfZeros(w, n - 1, m, one);
    }
  }

  lemma {:induction false} ColumnsOfSum(d: seq<Byte>, m: nat, one: bool)
    ensures ParityAt(ColSum(d), 8, m, one) == ColumnParity(d, m, one)
  {
    if d == [] {
      ParityOfZeros(8, 8, m, one);
    } else {
      var n := |d| - 1;
      ColumnsOfSum(d[..n], m, one);
      ParityLinear(ColSum(d[..n]), d[n], 8, m, one);
    }
  }

  // ---------------------------------------------------------------- the code

  lemma LayoutBits(lo: Byte, le: Byte, co: Bits, ce: Bits)
    requires |co| == |ce| == 3
    ensures var c := Inverted(Layout(Zip(lo, le), Zip(co, ce)));
            && (forall k :: 0 <= k < 4 ==> c[0][2 * k + 1] == !lo[k + 4] && c[0][2 * k] == !le[k + 4])
            && (forall k :: 0 <= k < 4 ==> c[1][2 * k + 1] == !lo[k] && c[1][2 * k] == !le[k])
            && (forall k :: 0 <= k < 3 ==> c[2][2 * k + 3] == !co[k] && c[2][2 * k + 2] == !ce[k])
            && c[2][0] && c[2][1]
  {
  }

  /** The code holds complemented parities. The first byte has those of the bytes with and without each of the four high
      bits in their number, the second those for the four low bits; the third has those of the bits with and without
      each bit in their place, above two ones. */
  lemma CodeExactly(d: seq<Byte>, k: nat)
    requires k < 4
    ensures Code(d)[0][2 * k + 1] == !LineParity(d, k + 4, true) && Code(d)[0][2 * k] == !LineParity(d, k + 4, false)
    ensures Code(d)[1][2 * k + 1] == !LineParity(d, k, true) && Code(d)[1][2 * k] == !LineParity(d, k, false)
    ensures k < 3 ==> Code(d)[2][2 * k + 3] == !ColumnParity(d, k, true)
    ensures k < 3 ==> Code(d)[2][2 * k + 2] == !ColumnParity(d, k, false)
    ensures Code(d)[2][0] && Code(d)[2][1]
  {
    var f, c, n := Flags(d), ColSum(d), |d|;
    LayoutBits(IndexSum(f, n, 8, false), IndexSum(f, n, 8, true), IndexSum(c, 8, 3, false), IndexSum(c, 8, 3, true));
    LineSums(d, k + 4);
    LineSums(d, k);
    if k < 3 {
      ColumnSums(d, k);
    }
  }

  lemma LineSums(d: seq<Byte>, m: nat)
    requires m < 8
    ensures IndexSum(Flags(d), |d|, 8, false)[m] == LineParity(d, m, true)
    ensures IndexSum(Flags(d), |d|, 8, true)[m] == LineParity(d, m, false)
  {
    SumIsParity(Flags(d), |d|, 8, m, false);
    SumIsParity(Flags(d), |d|, 8, m, true);
    LinesOfFlags(d, m, true);
    LinesOfFlags(d, m, false);
  }

  lemma ColumnSums(d: seq<Byte>, m: nat)
    requires m < 3
    ensures IndexSum(ColSum(d), 8, 3, false)[m] == ColumnParity(d, m, true)
    ensures IndexSum(ColSum(d), 8, 3, true)[m] == ColumnParity(d, m, false)
  {
    SumIsParity(ColSum(d), 8, 3, m, false);
    SumIsParity(ColSum(d), 8, 3, m, true);
    ColumnsOfSum(d, m, true);
    ColumnsOfSum(d, m, false);
  }
}
