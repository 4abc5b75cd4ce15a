/** Fixed-width words as sequences of bits, lowest bit first. */
module Bits {

  type Bits = seq<bool>

  /** An unsigned char. */
  type Byte = b: Bits | |b| == 8 witness [false, false, false, false, false, false, false, false]

  function B(b: bool): nat { if b then 1 else 0 }

  function Zeros(w: nat): (r: Bits)
    ensures |r| == w && forall k :: 0 <= k < w ==> !r[k]
  {
    seq(w, k => false)
  }

  // ---------------------------------------------------------------- exclusive or and complement

  function Xor(a: Bits, b: Bits): (r: Bits)
    requires |a| == |b|
    ensures |r| == |a| && forall k :: 0 <= k < |r| ==> r[k] == (a[k] != b[k])
  {
    seq(|a|, k requires 0 <= k < |a| => a[k] != b[k])
  }

  function XorIf(a: Bits, c: bool, b: Bits): (r: Bits)
    requires |a| == |b|
    ensures |r| == |a| && forall k :: 0 <= k < |r| ==> r[k] == (a[k] != (c && b[k]))
  {
    if c then Xor(a, b) else a
  }

  function Not(a: Bits): (r: Bits)
    ensures |r| == |a| && forall k :: 0 <= k < |r| ==> r[k] == !a[k]
  {
    seq(|a|, k requires 0 <= k < |a| => !a[k])
  }

  lemma SelfXor(a: Bits)
    ensures Xor(a, a) == Zeros(|a|)
  {
  }

  lemma EqualByXor(a: Bits, b: Bits)
    requires |a| == |b|
    ensures a == b <==> Xor(a, b) == Zeros(|a|)
  {
    if Xor(a, b) == Zeros(|a|) {
      forall k | 0 <= k < |a|
        ensures a[k] == b[k]
      {
        assert Xor(a, b)[k] == Zeros(|a|)[k];
      }
    } else if a == b {
      SelfXor(a);
    }
  }

  // ---------------------------------------------------------------- counting and parity

  /** The number of bits set. */
  function Count(a: Bits): nat {
    if a == [] then 0 else B(a[0]) + Count(a[1..])
  }

  /** Whether an odd number of bits is set. */
  predicate Odd(a: Bits) { a != [] && (a[0] != Odd(a[1..])) }

  lemma {:induction false} OddIsCount(a: Bits)
    ensures Odd(a) <==> Count(a) % 2 == 1
  {
    if a != [] {
      OddIsCount(a[1..]);
    }
  }

  lemma {:induction false} OddXor(a: Bits, b: Bits)
    requires |a| == |b|
    ensures Odd(Xor(a, b)) <==> (Odd(a) != Odd(b))
  {
    if a != [] {
      assert Xor(a, b)[1..] == Xor(a[1..], b[1..]);
      OddXor(a[1..], b[1..]);
    }
  }

  lemma {:induction false} CountConcat(a: Bits, b: Bits)
    ensures Count(a + b) == Count(a) + Count(b)
  {
    if a == [] {
      assert a + b == b;
    } else {
      assert (a + b)[1..] == a[1..] + b;
      CountConcat(a[1..], b);
    }
  }

  lemma {:induction false} CountBounds(a: Bits)
    ensures Count(a) <= |a|
    ensures Count(a) == 0 <==> a == Zeros(|a|)
  {
    if a != [] {
      CountBounds(a[1..]);
      assert a == [a[0]] + a[1..];
      assert Zeros(|a|)[1..] == Zeros(|a| - 1);
    }
  }

  /** Only bit k of w is set. */
  function OneHot(w: nat, k: nat): (r: Bits)
    requires k < w
    ensures |r| == w && forall i :: 0 <= i < w ==> r[i] == (i == k)
  {
    seq(w, i => i == k)
  }

  lemma {:induction false} CountOne(a: Bits) returns (k: nat)
    requires Count(a) == 1
    ensures k < |a| && a == OneHot(|a|, k)
  {
    if a[0] {
      CountBounds(a[1..]);
      assert a == [true] + a[1..];
      k := 0;
    } else {
      var j := CountOne(a[1..]);
      assert a == [false] + a[1..];
      k := j + 1;
    }
  }

  /** Flipping one bit changes the count by one. */
  lemma {:induction false} CountFlip(a: Bits, k: nat)
    requires k < |a|
    ensures Count(Xor(a, OneHot(|a|, k))) == if a[k] then Count(a) - 1 else Count(a) + 1
  {
    var b := Xor(a, OneHot(|a|, k));
    if k == 0 {
      assert b[1..] == a[1..];
    } else {
      assert b[1..] == Xor(a[1..], OneHot(|a| - 1, k - 1));
      CountFlip(a[1..], k - 1);
    }
  }

  // ---------------------------------------------------------------- numbers

  function Pow2(w: nat): (p: nat)
    ensures p > 0
  {
    if w == 0 then 1 else 2 * Pow2(w - 1)
  }

  /** The number the bits spell. */
  function Number(a: Bits): (n: nat)
    ensures n < Pow2(|a|)
  {
    if a == [] then 0 else B(a[0]) + 2 * Number(a[1..])
  }

  /** The lowest w bits of n. */
  function BitsOf(n: nat, w: nat): (r: Bits)
    ensures |r| == w
  {
    if w == 0 then [] else [n % 2 == 1] + BitsOf(n / 2, w - 1)
  }

  lemma {:induction false} NumberOfBits(n: nat, w: nat)
    requires n < Pow2(w)
    ensures Number(BitsOf(n, w)) == n
  {
    if w > 0 {
      NumberOfBits(n / 2, w - 1);
      assert BitsOf(n, w)[1..] == BitsOf(n / 2, w - 1);
    }
  }

  /** Subtracting from all ones complements. */
  lemma {:induction false} BitsFromFull(n: nat, w: nat)
    requires n < Pow2(w)
    ensures BitsOf(Pow2(w) - 1 - n, w) == Not(BitsOf(n, w))
  {
    if w > 0 {
      var m := Pow2(w) - 1 - n;
      assert m / 2 == Pow2(w - 1) - 1 - n / 2;
      BitsFromFull(n / 2, w - 1);
      assert Not(BitsOf(n, w)) == [!(n % 2 == 1)] + Not(BitsOf(n / 2, w - 1));
    }
  }

  lemma {:induction false} BitsPrefix(n: nat, w: nat, v: nat)
    requires w <= v
    ensures BitsOf(n, v)[..w] == BitsOf(n, w)
  {
    if w > 0 {
      BitsPrefix(n / 2, w - 1, v - 1);
    }
  }
}
