/** Decimal numerals, printed and read. */
module Decimal {
  import opened Results

  predicate IsDigit(c: char) {
    '0' <= c <= '9'
  }

  function Digit(d: nat): char
    requires d < 10
  {
    ('0' as int + d) as char
  }

  function DigitCount(s: string): (n: nat)
    ensures n <= |s|
    ensures forall i :: 0 <= i < n ==> IsDigit(s[i])
    ensures n < |s| ==> !IsDigit(s[n])
  {
    if s == [] || !IsDigit(s[0]) then 0 else 1 + DigitCount(s[1..])
  }

  ghost predicate AllDigits(s: string) {
    forall i :: 0 <= i < |s| ==> IsDigit(s[i])
  }

  /** The value of a numeral; characters that are not digits end it on the left. */
  function Number(digits: string): nat {
    if digits == [] || !IsDigit(digits[|digits| - 1]) then 0
    else 10 * Number(digits[..|digits| - 1]) + (digits[|digits| - 1] as int - '0' as int)
  }

  function Dec(n: nat): (s: string)
    ensures s != [] && AllDigits(s)
  {
    if n < 10 then [Digit(n)] else Dec(n / 10) + [Digit(n % 10)]
  }

  lemma {:induction false} NumberOfDec(n: nat)
    ensures Number(Dec(n)) == n
  {
    if n >= 10 {
      NumberOfDec(n / 10);
      assert Dec(n)[..|Dec(n)| - 1] == Dec(n / 10);
    } else {
      assert Number(Dec(n)[..0]) == 0;
    }
  }

  function Power10(k: nat): nat {
    if k == 0 then 1 else 10 * Power10(k - 1)
  }

  /** A numeral has at most k digits exactly when its value is below ten to the k. */
  lemma {:induction false} DecLength(n: nat, k: nat)
    requires k >= 1
    ensures |Dec(n)| <= k <==> n < Power10(k)
  {
    if k == 1 {
      assert Power10(1) == 10;
      if n >= 10 {
        assert |Dec(n / 10)| >= 1;
      }
    } else if n >= 10 {
      DecLength(n / 10, k - 1);
      assert n / 10 < Power10(k - 1) <==> n < 10 * Power10(k - 1);
    } else {
      PowerIsPositive(k - 1);
    }
  }

  lemma {:induction false} PowerIsPositive(k: nat)
    ensures Power10(k) >= 1
  {
    if k > 0 {
      PowerIsPositive(k - 1);
    }
  }

  /** padStart(width, "0") */
  function Padded(n: nat, width: nat): string {
    seq(if |Dec(n)| < width then width - |Dec(n)| else 0, _ => '0') + Dec(n)
  }

  lemma {:induction false} NumberOfZeros(zeros: nat, s: string)
    requires AllDigits(s)
    ensures Number(seq(zeros, _ => '0') + s) == Number(s)
  {
    var z := seq(zeros, _ => '0');
    if s == [] {
      assert z + s == z;
      if zeros > 0 {
        assert z[..|z| - 1] == seq(zeros - 1, _ => '0') + [];
        NumberOfZeros(zeros - 1, []);
      }
    } else {
      assert (z + s)[..|z + s| - 1] == z + s[..|s| - 1];
      NumberOfZeros(zeros, s[..|s| - 1]);
    }
  }

  lemma PaddedNumber(n: nat, width: nat)
    ensures Number(Padded(n, width)) == n
    ensures AllDigits(Padded(n, width))
    ensures width >= 1 ==> (|Padded(n, width)| == width <==> n < Power10(width))
  {
    NumberOfDec(n);
    NumberOfZeros(|Padded(n, width)| - |Dec(n)|, Dec(n));
    if width >= 1 {
      DecLength(n, width);
    }
  }

  // ---------------------------------------------------------------- reading

  /** The numeral that s starts with, and what follows it. */
  function ReadNumber(s: string): (r: Option<(nat, string)>)
    ensures r.Some? ==> |r.value.1| < |s|
  {
    var n := DigitCount(s);
    if n == 0 then None else Some((Number(s[..n]), s[n..]))
  }

  function Expect(s: string, literal: string): (r: Option<string>)
    ensures r.Some? ==> s == literal + r.value
  {
    if literal <= s then Some(s[|literal|..]) else None
  }

  predicate StartsWithDigit(s: string) {
    s != [] && IsDigit(s[0])
  }

  lemma {:induction false} DigitCountOf(digits: string, rest: string)
    requires AllDigits(digits) && !StartsWithDigit(rest)
    ensures DigitCount(digits + rest) == |digits|
  {
    if digits == [] {
      assert digits + rest == rest;
    } else {
      assert (digits + rest)[1..] == digits[1..] + rest;
      DigitCountOf(digits[1..], rest);
    }
  }

  lemma ReadsDec(n: nat, rest: string)
    requires !StartsWithDigit(rest)
    ensures ReadNumber(Dec(n) + rest) == Some((n, rest))
  {
    DigitCountOf(Dec(n), rest);
    NumberOfDec(n);
    assert (Dec(n) + rest)[..|Dec(n)|] == Dec(n);
    assert (Dec(n) + rest)[|Dec(n)|..] == rest;
  }

  lemma Expects(literal: string, rest: string)
    ensures Expect(literal + rest, literal) == Some(rest)
  {
    assert (literal + rest)[|literal|..] == rest;
  }
}
