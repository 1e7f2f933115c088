/** Decimal text as Go's `strconv` and `fmt` produce and read it: the
    identity synthesis of both decoders formats numbers, concatenates the
    digit strings and parses the result back into an integer. */
module Numerals {
  import opened Outcome

  predicate IsDigit(c: char) { '0' <= c <= '9' }

  predicate AllDigits(s: string) {
    forall i :: 0 <= i < |s| ==> IsDigit(s[i])
  }

  function DigitValue(c: char): (d: nat)
    requires IsDigit(c)
    ensures d < 10
  {
    c as int - '0' as int
  }

  function DigitChar(d: nat): (c: char)
    requires d < 10
    ensures IsDigit(c) && DigitValue(c) == d
  {
    ('0' as int + d) as char
  }

  function Pow10(k: nat): (p: nat)
    ensures p >= 1
  {
    if k == 0 then 1 else 10 * Pow10(k - 1)
  }

  function Pow2(k: nat): (p: nat)
    ensures p >= 1
  {
    if k == 0 then 1 else 2 * Pow2(k - 1)
  }

  /** The value of a digit string read most significant digit first;
      leading zeros read as zero. */
  function Value(s: string): nat
    requires AllDigits(s)
    decreases |s|
  {
    if |s| == 0 then 0 else Value(s[..|s| - 1]) * 10 + DigitValue(s[|s| - 1])
  }

  /** The decimal digits of `n` without sign or padding (`strconv.Itoa`
      of a non-negative number). */
  function Digits(n: nat): (r: string)
    ensures AllDigits(r) && |r| >= 1
    ensures |r| > 1 ==> r[0] != '0'
    decreases n
  {
    if n < 10 then [DigitChar(n)] else Digits(n / 10) + [DigitChar(n % 10)]
  }

  /** `strconv.Itoa`. */
  function Itoa(n: int): string {
    if n < 0 then "-" + Digits(-n) else Digits(n)
  }

  function Zeros(k: nat): (r: string)
    ensures |r| == k && AllDigits(r)
  {
    if k == 0 then "" else "0" + Zeros(k - 1)
  }

  /** `fmt.Sprintf("%0<width>d", n)` for a non-negative `n`: the digits of
      `n`, left-padded with zeros to at least `width` characters. */
  function Pad(n: nat, width: nat): (r: string)
    ensures AllDigits(r)
  {
    var d := Digits(n);
    if |d| < width then Zeros(width - |d|) + d else d
  }

  /** `strconv.ParseInt(s, 10, bitSize)`: an optional sign followed by at
      least one decimal digit, whose value must fit the signed width. */
  function ParseInt(s: string, bitSize: nat): (r: Result<int>)
    requires bitSize > 0
    ensures r.Ok? ==> -(Pow2(bitSize - 1) as int) <= r.value < Pow2(bitSize - 1)
    ensures r.Err? ==> r.error == ParseFailure(s)
  {
    var signed := |s| > 0 && (s[0] == '+' || s[0] == '-');
    var body := if signed then s[1..] else s;
    if |body| == 0 || !AllDigits(body) then Err(ParseFailure(s))
    else
      var v := if signed && s[0] == '-' then -(Value(body) as int) else Value(body) as int;
      if -(Pow2(bitSize - 1) as int) <= v < Pow2(bitSize - 1) then Ok(v) else Err(ParseFailure(s))
  }

  // ---------------------------------------------------------------------
  // Properties of the decimal text

  /** Parsing a plain digit string succeeds exactly when its value fits. */
  lemma ParseDigits(s: string, bitSize: nat)
    requires bitSize > 0 && |s| > 0 && AllDigits(s)
    ensures ParseInt(s, bitSize) ==
      if Value(s) < Pow2(bitSize - 1) then Ok(Value(s)) else Err(ParseFailure(s))
  {
    assert IsDigit(s[0]);
  }

  lemma {:induction false} ValueBound(s: string)
    requires AllDigits(s)
    ensures Value(s) < Pow10(|s|)
    decreases |s|
  {
    if |s| > 0 {
      ValueBound(s[..|s| - 1]);
    }
  }

  /** The value of a concatenation: the left part shifted by the length of
      the right part. */
  lemma {:induction false} ValueConcat(a: string, b: string)
    requires AllDigits(a) && AllDigits(b)
    ensures AllDigits(a + b)
    ensures Value(a + b) == Value(a) * Pow10(|b|) + Value(b)
    decreases |b|
  {
    if |b| == 0 {
      assert a + b == a;
    } else {
      var b' := b[..|b| - 1];
      var d := DigitValue(b[|b| - 1]);
      assert (a + b)[..|a + b| - 1] == a + b';
      assert (a + b)[|a + b| - 1] == b[|b| - 1];
      ValueConcat(a, b');
      assert Value(a + b) == Value(a + b') * 10 + d;
      assert Value(b) == Value(b') * 10 + d;
      Shift(Value(a), Pow10(|b'|), Value(b'));
    }
  }

  /** Appending a digit to `x * p + y` multiplies both parts by ten. */
  lemma Shift(x: nat, p: nat, y: nat)
    ensures (x * p + y) * 10 == x * (10 * p) + y * 10
  {
  }

  lemma {:induction false} ValueZeros(k: nat)
    ensures Value(Zeros(k)) == 0
    decreases k
  {
    if k > 0 {
      ValueConcat("0", Zeros(k - 1));
      ValueZeros(k - 1);
    }
  }

  /** Reading back the digits of `n` gives `n`. */
  lemma {:induction false} ValueDigits(n: nat)
    ensures Value(Digits(n)) == n
    decreases n
  {
    if n >= 10 {
      var d := Digits(n / 10);
      ValueDigits(n / 10);
      assert (d + [DigitChar(n % 10)])[..|d|] == d;
    }
  }

  /** Zero padding neither changes the value nor shortens the text. */
  lemma PadValue(n: nat, width: nat)
    ensures AllDigits(Pad(n, width))
    ensures Value(Pad(n, width)) == n
    ensures |Pad(n, width)| == if |Digits(n)| < width then width else |Digits(n)|
  {
    var d := Digits(n);
    ValueDigits(n);
    if |d| < width {
      LeadingZeros(width - |d|, d);
    }
  }

  /** Leading zeros do not change the value. */
  lemma LeadingZeros(k: nat, d: string)
    requires AllDigits(d)
    ensures AllDigits(Zeros(k) + d) && Value(Zeros(k) + d) == Value(d)
  {
    var z := Zeros(k);
    ValueConcat(z, d);
    ValueZeros(k);
    assert Value(z) * Pow10(|d|) == 0;
  }

  /** A number is padded to exactly `width` characters when it has at most
      that many digits. */
  lemma {:induction false} DigitsLength(n: nat, width: nat)
    requires width >= 1 && n < Pow10(width)
    ensures |Digits(n)| <= width
    decreases n
  {
    if n >= 10 {
      assert width >= 2;
      DigitsLength(n / 10, width - 1);
    }
  }

  /** Digit strings of equal length and equal value are equal. */
  lemma {:induction false} ValueInjective(a: string, b: string)
    requires AllDigits(a) && AllDigits(b) && |a| == |b|
    requires Value(a) == Value(b)
    ensures a == b
    decreases |a|
  {
    if |a| > 0 {
      var a', b' := a[..|a| - 1], b[..|b| - 1];
      assert DigitValue(a[|a| - 1]) == DigitValue(b[|b| - 1]);
      ValueInjective(a', b');
      assert a == a' + [a[|a| - 1]];
      assert b == b' + [b[|b| - 1]];
    }
  }

  lemma {:induction false} Pow10Monotone(a: nat, b: nat)
    requires a <= b
    ensures Pow10(a) <= Pow10(b)
    decreases b
  {
    if a < b {
      Pow10Monotone(a, b - 1);
    }
  }

  /** Digit strings behind a common head whose value is not zero read as
      the same number only when they are the same: the head fixes how many
      digits follow it. */
  lemma HeadValueInjective(head: string, x1: string, x2: string)
    requires AllDigits(head) && AllDigits(x1) && AllDigits(x2) && Value(head) >= 1
    requires AllDigits(head + x1) && AllDigits(head + x2)
    requires Value(head + x1) == Value(head + x2)
    ensures x1 == x2
  {
    ValueConcat(head, x1);
    ValueConcat(head, x2);
    if |x1| != |x2| {
      var a, b := if |x1| < |x2| then x1 else x2, if |x1| < |x2| then x2 else x1;
      ValueConcat(head, a);
      ValueConcat(head, b);
      ShorterTailSmaller(Value(head), a, b);
      assert false;
    }
    ValueInjective(x1, x2);
  }

  /** With the same non-zero head, a shorter tail gives a smaller number. */
  lemma ShorterTailSmaller(p: nat, a: string, b: string)
    requires p >= 1 && AllDigits(a) && AllDigits(b) && |a| < |b|
    ensures p * Pow10(|a|) + Value(a) < p * Pow10(|b|) + Value(b)
  {
    ValueBound(a);
    var pa, pb := Pow10(|a|), Pow10(|b|);
    Pow10Monotone(|a| + 1, |b|);
    assert pb >= 10 * pa;
    ScaleBound(p, pa, pb);
  }

  /** The products behind `ShorterTailSmaller`, kept apart from the digit
      strings. */
  lemma ScaleBound(p: nat, pa: nat, pb: nat)
    requires p >= 1 && pb >= 10 * pa
    ensures p * pa >= pa && p * pb >= 10 * (p * pa)
  {
    MulMonotone(1, p, pa);
    MulMonotone(10 * pa, pb, p);
    assert (10 * pa) * p == 10 * (p * pa);
  }

  /** A digit string without a leading zero is worth at least a one
      followed by as many zeros as it has further digits. */
  lemma {:induction false} ValueLowerBound(s: string)
    requires AllDigits(s) && |s| >= 1 && s[0] != '0'
    ensures Value(s) >= Pow10(|s| - 1)
    decreases |s|
  {
    if |s| > 1 {
      var front := s[..|s| - 1];
      assert front[0] == s[0];
      ValueLowerBound(front);
    }
  }

  /** Digit strings without leading zeros are equal when their values
      are. */
  lemma LeadingValueInjective(a: string, b: string)
    requires AllDigits(a) && AllDigits(b) && |a| >= 1 && |b| >= 1 && a[0] != '0' && b[0] != '0'
    requires Value(a) == Value(b)
    ensures a == b
  {
    if |a| != |b| {
      var short, long := if |a| < |b| then a else b, if |a| < |b| then b else a;
      ValueBound(short);
      ValueLowerBound(long);
      Pow10Monotone(|short|, |long| - 1);
      assert false;
    }
    ValueInjective(a, b);
  }

  /** Text that parses and starts with a digit consists of digits only. */
  lemma ParsedDigits(s: string, bitSize: nat)
    requires bitSize > 0 && ParseInt(s, bitSize).Ok? && |s| > 0 && IsDigit(s[0])
    ensures AllDigits(s) && ParseInt(s, bitSize) == Ok(Value(s))
  {
  }

  lemma {:induction false} Pow2Monotone(a: nat, b: nat)
    requires a <= b
    ensures Pow2(a) <= Pow2(b)
    decreases b
  {
    if a < b {
      Pow2Monotone(a, b - 1);
    }
  }

  /** Two decimal digits fit a signed 32-bit integer. */
  lemma TwoDigitsFit()
    ensures Pow10(2) < Pow2(31)
  {
    assert Pow2(7) == 128 by {
      assert Pow2(1) == 2 && Pow2(2) == 4 && Pow2(3) == 8 && Pow2(4) == 16 && Pow2(5) == 32 && Pow2(6) == 64;
    }
    Pow2Monotone(7, 31);
  }

  lemma MulMonotone(x: nat, y: nat, z: nat)
    requires x <= y
    ensures x * z <= y * z
  {
  }
}
