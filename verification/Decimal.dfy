/** Decimal output and input: printf_d (lib/stdio.c) and atoi (lib/string.c). */
module Decimal {
  import opened Machine

  /** The int that n wraps to in two's complement. */
  function WrapInt(n: int): (r: Long)
    ensures -HALF <= n < HALF ==> r == n
  {
    var m := n % MODULUS;
    if m < HALF then m else m - MODULUS
  }

  /** ~n */
  function Complement(n: Long): Long { -1 - n }

  predicate IsDigit(c: char) { '0' <= c <= '9' }

  function DigitOf(c: char): nat
    requires IsDigit(c)
  {
    c as int - '0' as int
  }

  function CharOf(n: nat): (c: char)
    requires n < 10
    ensures IsDigit(c) && DigitOf(c) == n
  {
    (n + '0' as int) as char
  }

  predicate AllDigits(s: string) { forall i :: 0 <= i < |s| ==> IsDigit(s[i]) }

  /** The number a string of digits spells. */
  function Value(s: string): nat
    requires AllDigits(s)
  {
    if s == [] then 0 else 10 * Value(s[..|s| - 1]) + DigitOf(s[|s| - 1])
  }

  /** The digits of n, highest first; none for zero. */
  function Digits(n: nat): (s: string)
    ensures AllDigits(s)
  {
    if n == 0 then [] else Digits(n / 10) + [CharOf(n % 10)]
  }

  lemma {:induction false} ValueOfDigits(n: nat)
    ensures Value(Digits(n)) == n
  {
    if n > 0 {
      ValueOfDigits(n / 10);
      var s := Digits(n);
      assert s[..|s| - 1] == Digits(n / 10);
    }
  }

  // ---------------------------------------------------------------- printf_d

  function Reversed(s: string): (r: string)
    ensures |r| == |s|
  {
    if s == [] then [] else [s[|s| - 1]] + Reversed(s[..|s| - 1])
  }

  /** What printf_d puts out. For the lowest int, whose magnitude does not fit, it is the sign alone. */
  function Shown(d: Long): string {
    if d == 0 then "0"
    else if d == -HALF then "-"
    else if d < 0 then "-" + Digits(-d)
    else Digits(d)
  }

  function Pow10(k: nat): nat { if k == 0 then 1 else 10 * Pow10(k - 1) }

  /** Where the filling loop stands: the digits still to come, and those in the buffer in reverse. */
  predicate Filling(n: nat, d: nat, filled: string) { Digits(d) + Reversed(filled) == Digits(n) }

  lemma FillOne(n: nat, d: nat, filled: string)
    requires d > 0 && Filling(n, d, filled)
    ensures Filling(n, d / 10, filled + [CharOf(d % 10)])
  {
    var more := filled + [CharOf(d % 10)];
    assert more[..|filled|] == filled;
    assert Reversed(more) == [CharOf(d % 10)] + Reversed(filled);
    assert Digits(d / 10) + Reversed(more) == (Digits(d / 10) + [CharOf(d % 10)]) + Reversed(filled);
  }

  /** The loop that fills the digit buffer from the low end: at most ten digits. */
  method FillDigits(d0: Long, buf: array<char>) returns (i: nat)
    requires buf.Length == 10
    modifies buf
    ensures i <= 10 && Reversed(buf[..i]) == if d0 > 0 then Digits(d0) else []
  {
    var d: Long := d0;
    i := 0;
    Billions();
    while d > 0
      invariant i <= 10 && (d <= 0 || d < Pow10(10 - i))
      invariant if d0 <= 0 then d == d0 && i == 0 else d >= 0 && Filling(d0, d, buf[..i])
      decreases d
    {
      FillOne(d0, d, buf[..i]);
      TenTimes(d, 10 - i);
      ghost var done := buf[..i];
      buf[i] := CharOf(d % 10);
      i := i + 1;
      assert buf[..i] == done + [CharOf(d % 10)];
      d := d / 10;
    }
  }

  lemma TenTimes(d: nat, k: nat)
    requires 0 < d < Pow10(k)
    ensures k > 0 && d / 10 < Pow10(k - 1)
  {
  }

  lemma Billions()
    ensures HALF <= Pow10(10)
  {
    assert Pow10(5) == 100000;
    assert Pow10(10) == 10_000_000_000;
  }

  /** The loop that puts the digits out in reverse. */
  method PutReversed(buf: array<char>, n: nat) returns (out: string)
    requires n <= buf.Length
    ensures out == Reversed(buf[..n])
  {
    out := "";
    var i: nat := n;
    while i > 0
      invariant i <= n && out + Reversed(buf[..i]) == Reversed(buf[..n])
    {
      i := i - 1;
      out := out + [buf[i]];
      assert buf[..i + 1][..i] == buf[..i];
    }
  }

  /** printf_d: the characters put out, and the count returned, which leaves out the sign. */
  method PrintfD(d0: Long) returns (out: string, num: nat)
    ensures out == Shown(d0)
    ensures num == if d0 < 0 then |out| - 1 else |out|
  {
    var d := d0;
    out := "";
    if d == 0 {
      return "0", 1;
    }
    if d < 0 {
      var below: int := d;
      d := WrapInt(below - 1);
      d := Complement(d);
      out := "-";
    }
    var buf := new char[10];
    num := FillDigits(d, buf);
    var digits := PutReversed(buf, num);
    out := out + digits;
  }

  // ---------------------------------------------------------------- atoi

  /** The digits that s starts with. */
  function Leading(s: string): (r: string)
    ensures AllDigits(r) && |r| <= |s| && r == s[..|r|]
    ensures |r| < |s| ==> !IsDigit(s[|r|])
  {
    if s == [] || !IsDigit(s[0]) then [] else [s[0]] + Leading(s[1..])
  }

  /** Where the digits stop. */
  lemma {:induction false} InLeading(s: string, n: nat)
    requires n < |s| && n <= |Leading(s)|
    ensures IsDigit(s[n]) <==> n < |Leading(s)|
    ensures n < |Leading(s)| ==> Leading(s)[n] == s[n]
  {
    if n > 0 {
      InLeading(s[1..], n - 1);
    }
  }

  lemma ValueNext(digits: string, n: nat)
    requires AllDigits(digits) && n < |digits|
    ensures Value(digits[..n + 1]) == 10 * Value(digits[..n]) + DigitOf(digits[n])
  {
    assert digits[..n + 1][..n] == digits[..n];
  }

  /** What atoi makes of a string. */
  function Parsed(s: string): Long
    requires s != []
  {
    if s[0] == '-' then WrapInt(-(Value(Leading(s[1..])) as int)) else WrapInt(Value(Leading(s)))
  }

  /** The loop of atoi, over the characters from p on. */
  method ReadDigits(p: string) returns (val: Long)
    requires '\0' in p
    ensures val == WrapInt(Value(Leading(p)))
  {
    var n := 0;
    val := 0;
    ghost var digits := Leading(p);
    while n < |p| && IsDigit(p[n])
      invariant n <= |digits| && val == WrapInt(Value(digits[..n]))
    {
      InLeading(p, n);
      DigitAdded(digits, n, val);
      val := WrapInt(val * 10);
      val := WrapInt(val + DigitOf(p[n]));
      n := n + 1;
    }
    assert n == |digits| && digits[..n] == digits;
  }

  /** atoi of a string that ends with a null character. */
  method Atoi(str: string) returns (r: Long)
    requires '\0' in str
    ensures r == Parsed(str)
  {
    var p := str;
    var neg := false;
    if str[0] == '-' {
      neg := true;
      p := p[1..];
    }
    r := ReadDigits(p);
    if neg {
      WrapNegated(Value(Leading(p)));
      r := Complement(r);
      r := WrapInt(r + 1);
    }
  }

  lemma WrapShift(n: int, k: int)
    ensures WrapInt(n + k * MODULUS) == WrapInt(n)
  {
  }

  lemma WrapIsShift(n: int) returns (k: int)
    ensures WrapInt(n) == n + k * MODULUS
  {
    var m := n % MODULUS;
    k := -(n / MODULUS) - if m < HALF then 0 else 1;
  }

  /** Wrapping early or late makes no difference. */
  lemma WrapDigit(v: int, digit: int)
    ensures WrapInt(WrapInt(WrapInt(v) * 10) + digit) == WrapInt(10 * v + digit)
  {
    var k := WrapIsShift(v);
    WrapShift(10 * v, 10 * k);
    var j := WrapIsShift(10 * v);
    WrapShift(10 * v + digit, j);
  }

  lemma DigitAdded(digits: string, n: nat, val: Long)
    requires AllDigits(digits) && n < |digits| && val == WrapInt(Value(digits[..n]))
    ensures WrapInt(WrapInt(val * 10) + DigitOf(digits[n])) == WrapInt(Value(digits[..n + 1]))
  {
    ValueNext(digits, n);
    WrapDigit(Value(digits[..n]), DigitOf(digits[n]));
  }

  lemma WrapNegated(v: int)
    ensures WrapInt(Complement(WrapInt(v)) + 1) == WrapInt(-v)
  {
    var k := WrapIsShift(v);
    WrapShift(-v, -k);
  }

  lemma {:induction false} LeadingStops(digits: string, rest: string)
    requires AllDigits(digits) && (rest == [] || !IsDigit(rest[0]))
    ensures Leading(digits + rest) == digits
  {
    if digits == [] {
      assert digits + rest == rest;
    } else {
      assert (digits + rest)[1..] == digits[1..] + rest;
      LeadingStops(digits[1..], rest);
    }
  }

  lemma PositiveBack(n: nat, rest: string)
    requires 0 < n < HALF && rest != [] && !IsDigit(rest[0])
    ensures Parsed(Digits(n) + rest) == n
  {
    ValueOfDigits(n);
    LeadingStops(Digits(n), rest);
    FirstIsDigit(n);
  }

  lemma AfterSign(digits: string, rest: string)
    ensures ("-" + digits + rest)[0] == '-' && ("-" + digits + rest)[1..] == digits + rest
  {
  }

  lemma SignedValue(s: string, digits: string)
    requires s != [] && s[0] == '-' && Leading(s[1..]) == digits
    ensures Parsed(s) == WrapInt(-(Value(digits) as int))
  {
  }

  lemma NegativeBack(n: int, rest: string)
    requires 0 <= n < HALF && rest != [] && !IsDigit(rest[0])
    ensures Parsed("-" + Digits(n) + rest) == WrapInt(-n)
  {
    ValueOfDigits(n);
    LeadingStops(Digits(n), rest);
    AfterSign(Digits(n), rest);
    SignedValue("-" + Digits(n) + rest, Digits(n));
  }

  lemma ZeroBack(rest: string)
    requires rest != [] && !IsDigit(rest[0])
    ensures Parsed("0" + rest) == 0
  {
    LeadingStops("0", rest);
    assert "0"[..0] == [];
    assert Value("0") == 0;
  }

  /** The lowest int comes out as a lone sign, which reads as zero. */
  lemma LowestLost(rest: string)
    requires rest != [] && !IsDigit(rest[0])
    ensures Parsed(Shown(-HALF) + rest) == 0
  {
    NegativeBack(0, rest);
    assert "-" + Digits(0) + rest == "-" + rest;
  }

  lemma NegativeIntBack(d: Long, rest: string)
    requires -HALF < d < 0 && rest != [] && !IsDigit(rest[0])
    ensures Parsed(Shown(d) + rest) == d
  {
    var n: int := -d;
    assert Shown(d) == "-" + Digits(n);
    NegativeBack(n, rest);
  }

  /** What printf_d puts out atoi reads back, for every int but the lowest. */
  lemma RoundTripExactly(d: Long, rest: string)
    requires rest != [] && !IsDigit(rest[0])
    ensures Parsed(Shown(d) + rest) == d <==> d != -HALF
  {
    if d == 0 {
      ZeroBack(rest);
    } else if d > 0 {
      PositiveBack(d, rest);
    } else if d > -HALF {
      NegativeIntBack(d, rest);
    } else {
      LowestLost(rest);
    }
  }

  lemma FirstIsDigit(n: nat)
    requires n > 0
    ensures Digits(n) != [] && IsDigit(Digits(n)[0])
  {
  }

  // ---------------------------------------------------------------- numerals

  /** A numeral as people write it: a sign only in front of digits that are not zero, no zero in front. */
  predicate Canonical(s: string) {
    var digits := if s != [] && s[0] == '-' then s[1..] else s;
    digits != [] && AllDigits(digits) && (digits[0] == '0' ==> s == ['0'])
  }

  /** The number a numeral spells. */
  function Spelled(s: string): int
    requires Canonical(s)
  {
    if s[0] == '-' then -(Value(s[1..]) as int) else Value(s)
  }

  lemma DigitsNext(h: nat, c: char)
    requires IsDigit(c) && (h > 0 || c != '0')
    ensures Digits(10 * h + DigitOf(c)) == Digits(h) + [c]
  {
    CharBack(c);
    LastDigit(h, DigitOf(c));
  }

  lemma ValueSplit(t: string)
    requires AllDigits(t) && t != []
    ensures Value(t) == 10 * Value(t[..|t| - 1]) + DigitOf(t[|t| - 1])
  {
  }

  lemma OneDigitMore(t: string, h: nat, c: char, v: nat)
    requires IsDigit(c) && (h > 0 || c != '0') && t == Digits(h) + [c] && v == 10 * h + DigitOf(c)
    ensures v > 0 && t == Digits(v)
  {
    CharBack(c);
    DigitsNext(h, c);
  }

  /** Digits without a zero in front are the digits of the number they spell, which is not zero. */
  lemma {:induction false} OnlyDigits(t: string)
    requires AllDigits(t) && t != [] && t[0] != '0'
    ensures Value(t) > 0 && t == Digits(Value(t))
  {
    var front, c := t[..|t| - 1], t[|t| - 1];
    ValueSplit(t);
    assert t == front + [c];
    if front == [] {
      OneDigitMore(t, 0, c, Value(t));
    } else {
      assert front[0] == t[0];
      OnlyDigits(front);
      OneDigitMore(t, Value(front), c, Value(t));
    }
  }

  lemma CharBack(c: char)
    requires IsDigit(c)
    ensures DigitOf(c) < 10 && CharOf(DigitOf(c)) == c && (DigitOf(c) == 0 <==> c == '0')
  {
  }

  lemma LastDigit(h: nat, l: nat)
    requires l < 10
    ensures (10 * h + l) / 10 == h && (10 * h + l) % 10 == l
  {
  }

  lemma {:induction false} DigitsInFront(n: nat)
    requires n > 0
    ensures Digits(n) != [] && Digits(n)[0] != '0' && Digits(n)[0] != '-'
  {
    if n >= 10 {
      DigitsInFront(n / 10);
    } else {
      assert Digits(n / 10) == [];
    }
  }

  lemma ZeroSpelled()
    ensures Value(['0']) == 0
  {
    assert Value(['0'][..0]) == 0;
  }

  /** Zero has one numeral. */
  lemma ZeroNumeral(s: string)
    requires Canonical(s) && Spelled(s) == 0
    ensures s == ['0']
  {
    var digits := if s[0] == '-' then s[1..] else s;
    if digits[0] != '0' {
      OnlyDigits(digits);
    }
  }

  /** So has every other number: its digits, behind a sign if it is negative. */
  lemma OtherNumeral(s: string, d: int)
    requires Canonical(s) && Spelled(s) == d && d != 0
    ensures s == if d < 0 then ['-'] + Digits(-d) else Digits(d)
  {
    var digits := if s[0] == '-' then s[1..] else s;
    ZeroSpelled();
    if digits[0] != '0' {
      OnlyDigits(digits);
      assert s[0] == '-' ==> s == ['-'] + digits;
    }
  }

  lemma DigitsAreNumeral(d: int)
    requires d != 0
    ensures var s := if d < 0 then ['-'] + Digits(-d) else Digits(d); Canonical(s) && Spelled(s) == d
  {
    var n: nat := if d < 0 then -d else d;
    DigitsInFront(n);
    ValueOfDigits(n);
    assert (['-'] + Digits(n))[1..] == Digits(n);
  }

  /** For every int but the lowest printf_d puts out the one numeral that spells it. */
  lemma ShownExactly(d: Long, s: string)
    requires d != -HALF
    ensures s == Shown(d) <==> Canonical(s) && Spelled(s) == d
  {
    if d == 0 {
      ZeroSpelled();
      if Canonical(s) && Spelled(s) == 0 {
        ZeroNumeral(s);
      }
    } else {
      DigitsAreNumeral(d);
      if Canonical(s) && Spelled(s) == d {
        OtherNumeral(s, d);
      }
    }
  }

  lemma {:induction false} DigitCount(n: nat)
    requires n > 0
    ensures Digits(n) != [] && Pow10(|Digits(n)| - 1) <= n < Pow10(|Digits(n)|)
  {
    if n >= 10 {
      DigitCount(n / 10);
    } else {
      assert Digits(n / 10) == [] && Pow10(1) == 10 * Pow10(0);
    }
  }

  /** What printf_d returns: 1 for zero, 0 for the lowest int, and else the number of digits, without the sign. */
  lemma CountExactly(d: Long)
    ensures Shown(d) != [] && (Shown(d)[0] == '-' <==> d < 0)
    ensures var num := if d < 0 then |Shown(d)| - 1 else |Shown(d)|;
            if d == 0 then num == 1
            else if d == -0x8000_0000 then num == 0
            else num > 0 && Pow10(num - 1) <= (if d < 0 then -(d as int) else d) < Pow10(num)
  {
    if d != 0 {
      var n: nat := if d < 0 then -(d as int) else d;
      DigitsInFront(n);
      DigitCount(n);
    }
  }

  lemma InFront(s: string, rest: string)
    requires s != []
    ensures (s + rest)[0] == s[0] && (s + rest)[1..] == s[1..] + rest
  {
  }

  lemma SignedNumeral(s: string, rest: string)
    requires Canonical(s) && s[0] == '-' && (rest == [] || !IsDigit(rest[0]))
    ensures Parsed(s + rest) == WrapInt(Spelled(s))
  {
    LeadingStops(s[1..], rest);
    InFront(s, rest);
    SignedValue(s + rest, s[1..]);
  }

  lemma PlainNumeral(s: string, rest: string)
    requires Canonical(s) && s[0] != '-' && (rest == [] || !IsDigit(rest[0]))
    ensures Parsed(s + rest) == WrapInt(Spelled(s))
  {
    LeadingStops(s, rest);
    assert (s + rest)[0] == s[0];
  }

  lemma Wrapped(n: int)
    ensures -0x8000_0000 <= WrapInt(n) < 0x8000_0000 && (WrapInt(n) as int - n) % 0x1_0000_0000 == 0
  {
    var _ := WrapIsShift(n);
  }

  /** atoi reads every numeral, up to wrapping, whatever follows it. */
  lemma NumeralRead(s: string, rest: string)
    requires Canonical(s) && (rest == [] || !IsDigit(rest[0]))
    ensures var r := Parsed(s + rest);
            -0x8000_0000 <= r < 0x8000_0000 && (r as int - Spelled(s)) % 0x1_0000_0000 == 0
  {
    if s[0] == '-' {
      SignedNumeral(s, rest);
    } else {
      PlainNumeral(s, rest);
    }
    Wrapped(Spelled(s));
  }
}
