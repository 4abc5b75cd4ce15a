/** The one's complement checksum with a single fold, and byte order (net/core/pkt.h). */
module Checksum {
  import opened Machine

  /** A uint16_t. */
  type Half = n: nat | n < 0x1_0000

  /** en_ntohs of a 16-bit value. */
  function Swap(w: Half): Half { w % 256 * 256 + w / 256 }

  function Low(w: Word): Half { w % 0x1_0000 }

  function High(w: Word): Half { w / 0x1_0000 }

  /** en_ntohl */
  function Reverse(w: Word): Word { Swap(Low(w)) * 0x1_0000 + Swap(High(w)) }

  /** Swapping bytes twice changes nothing; en_ntohl swaps the halves and the bytes of each. */
  lemma SwapTwice(w: Half)
    ensures Swap(Swap(w)) == w
  {
  }

  lemma ReverseTwice(w: Word)
    ensures Reverse(Reverse(w)) == w
    ensures Low(Reverse(w)) == Swap(High(w)) && High(Reverse(w)) == Swap(Low(w))
  {
    SwapTwice(Low(w));
    SwapTwice(High(w));
    var v := Reverse(w);
    assert v / 0x1_0000 == Swap(Low(w)) && v % 0x1_0000 == Swap(High(w));
  }

  // ---------------------------------------------------------------- ocksum16

  function Sum(ws: seq<Half>): nat {
    if ws == [] then 0 else Sum(ws[..|ws| - 1]) + ws[|ws| - 1]
  }

  /** One fold, truncated to 16 bits. */
  function Fold(sum: nat): Half { (sum % 0x1_0000 + sum / 0x1_0000) % 0x1_0000 }

  /** What ocksum16 returns: the 32-bit sum, folded once. */
  function Ocksum(ws: seq<Half>): Half { Fold(Wrap(Sum(ws))) }

  lemma {:induction false} SumBound(ws: seq<Half>)
    ensures Sum(ws) <= |ws| * 0xffff
    ensures Sum(ws) == 0 <==> forall i :: 0 <= i < |ws| ==> ws[i] == 0
  {
    if ws != [] {
      var n := |ws| - 1;
      SumBound(ws[..n]);
      assert ws == ws[..n] + [ws[n]];
    }
  }

  /** ocksum16 over the first n 16-bit words of a buffer: the sum is kept in 32 bits, then folded once. */
  method Ocksum16(buf: array<Half>, n: nat) returns (r: Half)
    requires n <= buf.Length
    ensures r == Ocksum(buf[..n])
  {
    var sum: Word := 0;
    var i := 0;
    while i < n
      invariant i <= n && sum == Wrap(Sum(buf[..i]))
    {
      assert buf[..i + 1][..i] == buf[..i];
      WrapStep(Sum(buf[..i]), buf[i]);
      sum := Wrap(sum + buf[i]);
      i := i + 1;
    }
    sum := sum % 0x1_0000 + sum / 0x1_0000;
    r := sum % 0x1_0000;
  }

  lemma WrapStep(sum: nat, w: Half)
    ensures Wrap(Wrap(sum) + w) == Wrap(sum + w)
  {
  }

  /** Up to 65537 words cannot overflow the 32-bit sum. */
  lemma SumFits(ws: seq<Half>)
    requires |ws| <= 0x1_0001
    ensures Sum(ws) < MODULUS
  {
    SumBound(ws);
  }

  // ---------------------------------------------------------------- what the check means

  /** The fold of RFC 1071, repeated until nothing is carried. */
  function FullFold(sum: nat): (r: nat)
    ensures r < 0x1_0000
    decreases sum
  {
    if sum < 0x1_0000 then sum else FullFold(sum % 0x1_0000 + sum / 0x1_0000)
  }

  predicate Divisible(n: int) { n % 0xffff == 0 }

  lemma FoldCongruent(sum: nat)
    ensures Divisible(sum) <==> Divisible(sum % 0x1_0000 + sum / 0x1_0000)
  {
    var lo, hi := sum % 0x1_0000, sum / 0x1_0000;
    assert sum == 0xffff * hi + (lo + hi);
  }

  lemma {:induction false} FullFoldExact(sum: nat)
    ensures FullFold(sum) == 0xffff <==> sum > 0 && Divisible(sum)
    decreases sum
  {
    if sum >= 0x1_0000 {
      FoldCongruent(sum);
      FullFoldExact(sum % 0x1_0000 + sum / 0x1_0000);
    }
  }

  /** For a sum that fits 32 bits the single fold misses the verdict of the full check for one sum only. */
  lemma FoldExactly(sum: Word)
    ensures (Fold(sum) == 0xffff <==> FullFold(sum) == 0xffff) <==> sum != 0xFFFF_FFFF
  {
    FullFoldExact(sum);
    FoldCongruent(sum);
    FoldOnce(sum);
  }

  /** Half of the sum's fold, before truncation: 0, 0xffff or twice that when divisible. */
  lemma FoldOnce(sum: Word)
    ensures Fold(sum) == 0xffff <==> sum > 0 && sum != 0xFFFF_FFFF && Divisible(sum % 0x1_0000 + sum / 0x1_0000)
  {
    var lo, hi := sum % 0x1_0000, sum / 0x1_0000;
    assert sum == 0x1_0000 * hi + lo && lo + hi <= 2 * 0xffff;
    assert Divisible(lo + hi) <==> lo + hi == 0 || lo + hi == 0xffff || lo + hi == 2 * 0xffff;
  }

  /** What ocksum16 says of a buffer whose sum fits 32 bits: 0xffff if and only if the sum is non-zero and divisible
      by 0xffff, which is the full check, unless the sum is the one that is all ones. */
  lemma SingleFoldExact(ws: seq<Half>)
    requires Sum(ws) < MODULUS
    ensures Ocksum(ws) == 0xffff <==> Sum(ws) > 0 && Divisible(Sum(ws)) && Sum(ws) != 0xFFFF_FFFF
    ensures (Ocksum(ws) == 0xffff <==> FullFold(Sum(ws)) == 0xffff) <==> Sum(ws) != 0xFFFF_FFFF
    ensures |ws| <= 0x1_0000 ==> Sum(ws) != 0xFFFF_FFFF
  {
    var sum := Sum(ws);
    FoldExactly(sum);
    FoldOnce(sum);
    FoldCongruent(sum);
    SumBound(ws);
  }

  /** n words of all ones. */
  function Ones(n: nat): (ws: seq<Half>)
    ensures |ws| == n
  {
    seq(n, i => 0xffff)
  }

  lemma {:induction false} SumOfOnes(n: nat)
    ensures Sum(Ones(n)) == n * 0xffff
  {
    if n > 0 {
      assert Ones(n)[..n - 1] == Ones(n - 1);
      SumOfOnes(n - 1);
    }
  }

  /** So 65536 words is the bound: the shortest buffer that is misjudged is 65537 words of all ones, and it is
      the only one of its length. */
  lemma OneWordTooMany(ws: seq<Half>)
    requires |ws| == 0x1_0001
    ensures (Ocksum(ws) == 0xffff <==> FullFold(Sum(ws)) == 0xffff) <==> ws != Ones(0x1_0001)
  {
    SumFits(ws);
    SingleFoldExact(ws);
    SumOfOnes(0x1_0001);
    FullSum(ws);
  }

  lemma {:induction false} FullSum(ws: seq<Half>)
    ensures Sum(ws) == |ws| * 0xffff <==> ws == Ones(|ws|)
  {
    if ws != [] {
      var n := |ws| - 1;
      FullSum(ws[..n]);
      SumBound(ws[..n]);
      OnesSplit(ws, n);
    }
  }

  lemma OnesSplit(ws: seq<Half>, n: nat)
    requires |ws| == n + 1
    ensures ws == Ones(n + 1) <==> ws[..n] == Ones(n) && ws[n] == 0xffff
  {
    assert Ones(n + 1)[..n] == Ones(n);
    assert ws == ws[..n] + [ws[n]] && Ones(n + 1) == Ones(n) + [0xffff];
  }

  // ---------------------------------------------------------------- byte order

  function SwapAll(ws: seq<Half>): (r: seq<Half>)
    ensures |r| == |ws|
  {
    seq(|ws|, i requires 0 <= i < |ws| => Swap(ws[i]))
  }

  /** The sum of the high bytes. */
  function HighBytes(ws: seq<Half>): nat {
    if ws == [] then 0 else HighBytes(ws[..|ws| - 1]) + ws[|ws| - 1] / 256
  }

  lemma {:induction false} SwappedSum(ws: seq<Half>)
    ensures Sum(SwapAll(ws)) == 256 * Sum(ws) - 0xffff * HighBytes(ws)
  {
    if ws != [] {
      var n := |ws| - 1;
      assert SwapAll(ws)[..n] == SwapAll(ws[..n]);
      SwappedSum(ws[..n]);
    }
  }

  lemma TimesInvertible(s: int, h: int)
    ensures Divisible(256 * s - 0xffff * h) <==> Divisible(s)
  {
    if Divisible(s) {
      var k := s / 0xffff;
      assert 256 * s - 0xffff * h == 0xffff * (256 * k - h);
    }
    if Divisible(256 * s - 0xffff * h) {
      var m := (256 * s - 0xffff * h) / 0xffff;
      assert s == 0xffff * (256 * (m + h) - s);
    }
  }

  lemma SwappedZero(ws: seq<Half>)
    ensures Sum(SwapAll(ws)) == 0 <==> Sum(ws) == 0
  {
    SumBound(ws);
    SumBound(SwapAll(ws));
    forall i | 0 <= i < |ws|
      ensures SwapAll(ws)[i] == 0 <==> ws[i] == 0
    {
      SwapTwice(ws[i]);
    }
  }

  /** Among buffers whose sums fit 32 bits the verdict depends on byte order only where one order gives the sum that
      is misjudged and the other does not. */
  lemma ByteOrderExactly(ws: seq<Half>)
    requires Sum(ws) < MODULUS && Sum(SwapAll(ws)) < MODULUS
    ensures (Ocksum(SwapAll(ws)) == 0xffff <==> Ocksum(ws) == 0xffff)
       <==> (Sum(SwapAll(ws)) == 0xFFFF_FFFF <==> Sum(ws) == 0xFFFF_FFFF)
  {
    SingleFoldExact(ws);
    SingleFoldExact(SwapAll(ws));
    SwappedSum(ws);
    TimesInvertible(Sum(ws), HighBytes(ws));
    SwappedZero(ws);
    assert Divisible(0xFFFF_FFFF);
  }

  lemma OnesSwapped(ws: seq<Half>)
    ensures SwapAll(ws) == Ones(|ws|) <==> ws == Ones(|ws|)
  {
    forall i | 0 <= i < |ws|
      ensures SwapAll(ws)[i] == 0xffff <==> ws[i] == 0xffff
    {
      SwapTwice(ws[i]);
    }
    if SwapAll(ws) == Ones(|ws|) {
      assert forall i :: 0 <= i < |ws| ==> SwapAll(ws)[i] == 0xffff;
    }
  }

  /** The verdict does not depend on byte order, up to 65537 words. */
  lemma ByteOrderFree(ws: seq<Half>)
    requires |ws| <= 0x1_0001
    ensures Ocksum(SwapAll(ws)) == 0xffff <==> Ocksum(ws) == 0xffff
  {
    SumFits(ws);
    SumFits(SwapAll(ws));
    FullSum(ws);
    FullSum(SwapAll(ws));
    SumBound(ws);
    SumBound(SwapAll(ws));
    OnesSwapped(ws);
    ByteOrderExactly(ws);
  }

  lemma {:induction false} SumOfCopies(w: Half, n: nat)
    ensures Sum(seq(n, i => w)) == n * w
  {
    var ws := seq(n, i => w);
    if n > 0 {
      assert ws[..n - 1] == seq(n - 1, i => w);
      SumOfCopies(w, n - 1);
    }
  }

  lemma {:induction false} SumConcat(a: seq<Half>, b: seq<Half>)
    ensures Sum(a + b) == Sum(a) + Sum(b)
  {
    if b == [] {
      assert a + b == a;
    } else {
      var n := |b| - 1;
      assert (a + b)[..|a| + n] == a + b[..n];
      SumConcat(a, b[..n]);
    }
  }

  /** With one word more it can: these words sum to the misjudged sum in one byte order only. */
  function OrderMatters(): (ws: seq<Half>)
    ensures |ws| == 0x1_0002
  {
    seq(0xffff, i => 0xfffe) + Ones(3)
  }

  lemma OrderSums()
    ensures Sum(OrderMatters()) == 0xFFFF_FFFF && Sum(SwapAll(OrderMatters())) == 0xffff * 0xfeff + 3 * 0xffff
  {
    SumOfCopies(0xfffe, 0xffff);
    SumOfOnes(3);
    SumConcat(seq(0xffff, i => 0xfffe), Ones(3));
    SumOfCopies(0xfeff, 0xffff);
    SumConcat(seq(0xffff, i => 0xfeff), Ones(3));
    assert SwapAll(OrderMatters()) == seq(0xffff, i => 0xfeff) + Ones(3);
  }

  lemma ByteOrderMatters()
    ensures Ocksum(OrderMatters()) != 0xffff && Ocksum(SwapAll(OrderMatters())) == 0xffff
  {
    OrderSums();
    SingleFoldExact(OrderMatters());
    ByteOrderExactly(OrderMatters());
  }
}
