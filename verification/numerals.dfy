/** Integer numerals: `Number.prototype.toString(base)`, `String.prototype.padStart`,
    the digit-prefix parse behind JavaScript's `parseInt` and PHP's `intval`,
    and JavaScript's `Math.round`. */
module Numerals {
  import opened Wrappers

  predicate IsDigit(c: char) { '0' <= c <= '9' }

  function DigitChar(d: nat): (c: char)
    requires d < 10
    ensures IsDigit(c)
  {
    (48 + d) as char
  }

  function DigitValue(c: char): (d: nat)
    requires IsDigit(c)
    ensures d < 10 && DigitChar(d) == c
  {
    c as int - 48
  }

  /** Every character of `s` is a digit below `base`. */
  predicate AllDigits(s: string, base: nat) {
    forall i :: 0 <= i < |s| ==> IsDigit(s[i]) && DigitValue(s[i]) < base
  }

  function Pow(b: nat, k: nat): nat {
    if k == 0 then 1 else b * Pow(b, k - 1)
  }

  /** The number a digit string denotes in `base`, most significant digit first. */
  function Value(s: string, base: nat): nat
    requires AllDigits(s, base)
  {
    if s == [] then 0 else Value(s[..|s| - 1], base) * base + DigitValue(s[|s| - 1])
  }

  /** The shortest numeral of `n` in `base` (`n.toString(base)`); its digits are
      stated by `NatToStringDigits`. */
  function NatToString(n: nat, base: nat): (s: string)
    requires 2 <= base <= 10
    ensures |s| >= 1
    decreases n
  {
    if n < base then [DigitChar(n)] else NatToString(n / base, base) + [DigitChar(n % base)]
  }

  /** A numeral is all digits below its base, without leading zeros. */
  lemma {:induction false} NatToStringDigits(n: nat, base: nat)
    requires 2 <= base <= 10
    ensures AllDigits(NatToString(n, base), base)
    ensures |NatToString(n, base)| > 1 ==> NatToString(n, base)[0] != '0'
    decreases n
  {
    if n >= base {
      var q, r := n / base, n % base;
      DivStep(n, base);
      assert q >= 1;
      NatToStringDigits(q, base);
      NatToStringDigits(r, base);
      assert NatToString(n, base) == NatToString(q, base) + NatToString(r, base);
    }
  }

  /** `n.toString()` for any integer: a minus sign before the decimal digits of a negative. */
  function IntToString(n: int): (s: string)
    ensures |s| >= 1
    ensures n >= 0 <==> IsDigit(s[0])
  {
    if n < 0 then "-" + NatToString(-n, 10)
    else
      NatToStringDigits(n, 10);
      NatToString(n, 10)
  }

  /** `s.padStart(width, pad)`: pad characters in front until `width` is reached; never truncates. */
  function PadStart(s: string, width: nat, pad: char): (r: string)
    ensures |r| == if |s| >= width then |s| else width
  {
    if |s| >= width then s else seq(width - |s|, _ => pad) + s
  }

  /** A padded string ends with the original and begins with nothing but padding. */
  lemma PadStartShape(s: string, width: nat, pad: char)
    ensures var r := PadStart(s, width, pad);
      r[|r| - |s|..] == s && forall i :: 0 <= i < |r| - |s| ==> r[i] == pad
  {
  }

  lemma {:induction false} ValueOfNatToString(n: nat, base: nat)
    requires 2 <= base <= 10
    ensures AllDigits(NatToString(n, base), base) && Value(NatToString(n, base), base) == n
    decreases n
  {
    NatToStringDigits(n, base);
    if n >= base {
      var q, r := n / base, n % base;
      DivStep(n, base);
      ValueOfNatToString(q, base);
      LastDigit(NatToString(q, base), r, base);
      assert NatToString(n, base) == NatToString(q, base) + [DigitChar(r)];
    }
  }

  lemma DivStep(n: nat, base: nat)
    requires 2 <= base <= n
    ensures n / base < n && n % base < base && (n / base) * base + n % base == n
  {
  }

  /** Appending a digit multiplies by the base and adds the digit. */
  lemma LastDigit(p: string, d: nat, base: nat)
    requires 2 <= base <= 10 && d < base && AllDigits(p, base)
    ensures AllDigits(p + [DigitChar(d)], base)
    ensures Value(p + [DigitChar(d)], base) == Value(p, base) * base + d
  {
    var s := p + [DigitChar(d)];
    assert s[..|s| - 1] == p;
  }

  lemma {:induction false} ValueIgnoresLeadingZeros(k: nat, s: string, base: nat)
    requires 2 <= base && AllDigits(s, base)
    ensures AllDigits(seq(k, _ => '0') + s, base)
    ensures Value(seq(k, _ => '0') + s, base) == Value(s, base)
    decreases |s|
  {
    var z := seq(k, _ => '0');
    if s == [] {
      assert z + s == z;
      ZerosAreWorthZero(k, base);
    } else {
      ValueIgnoresLeadingZeros(k, s[..|s| - 1], base);
      assert (z + s)[..|z + s| - 1] == z + s[..|s| - 1];
    }
  }

  lemma {:induction false} ZerosAreWorthZero(k: nat, base: nat)
    requires 2 <= base
    ensures AllDigits(seq(k, _ => '0'), base)
    ensures Value(seq(k, _ => '0'), base) == 0
  {
    if k > 0 {
      ZerosAreWorthZero(k - 1, base);
      assert seq(k, _ => '0')[..k - 1] == seq(k - 1, _ => '0');
    }
  }

  /** A numeral fits in `k` digits exactly when the number is below `base^k`. */
  lemma {:induction false} NatToStringLength(n: nat, base: nat, k: nat)
    requires 2 <= base <= 10 && k >= 1
    ensures |NatToString(n, base)| <= k <==> n < Pow(base, k)
    decreases n
  {
    PowAtLeastBase(base, k);
    if n < base {
      assert |NatToString(n, base)| == 1;
    } else {
      assert |NatToString(n, base)| == |NatToString(n / base, base)| + 1;
      if k == 1 {
        assert Pow(base, 1) == base;
      } else {
        var p := Pow(base, k - 1);
        assert Pow(base, k) == base * p;
        DivStep(n, base);
        NatToStringLength(n / base, base, k - 1);
        DivBelowPow(n, base, p);
      }
    }
  }

  lemma PowAtLeastBase(base: nat, k: nat)
    requires 2 <= base && k >= 1
    ensures Pow(base, k) >= base
  {
    if k > 1 {
      PowAtLeastBase(base, k - 1);
    }
  }

  lemma DivBelowPow(n: nat, base: nat, p: nat)
    requires base >= 1
    ensures n / base < p <==> n < base * p
  {
    var q, r := n / base, n % base;
    assert n == base * q + r && r < base;
    if q < p {
      MulMonotone(base, q + 1, p);
      assert base * (q + 1) == base * q + base;
    } else {
      MulMonotone(base, p, q);
    }
  }

  lemma MulMonotone(c: nat, a: int, b: int)
    requires a <= b
    ensures c * a <= c * b
  {
    assert c * b - c * a == c * (b - a);
  }

  /** Length of the longest all-digit prefix of `s`. */
  function DigitPrefixLength(s: string): (k: nat)
    ensures k <= |s|
    ensures forall i :: 0 <= i < k ==> IsDigit(s[i])
    ensures k < |s| ==> !IsDigit(s[k])
  {
    if s == [] || !IsDigit(s[0]) then 0 else 1 + DigitPrefixLength(s[1..])
  }

  /** The value of the longest run of decimal digits at the start of `body`, if any. */
  function LeadingNumber(body: string): (r: Option<nat>)
    ensures r.Some? <==> |body| > 0 && IsDigit(body[0])
  {
    var k := DigitPrefixLength(body);
    if k == 0 then None else Some(Value(body[..k], 10))
  }

  /** An optional `+`/`-` sign followed by the longest run of decimal digits, as
      JavaScript's `parseInt(s)` and PHP's `intval(s)` read a number; `None` when
      no digit follows (where `parseInt` yields NaN). */
  function ParseSigned(s: string): (r: Option<int>)
    ensures |s| > 0 && IsDigit(s[0]) ==> r.Some? && r.value >= 0
    ensures |s| == 0 || (s[0] != '-' && s[0] != '+' && !IsDigit(s[0])) ==> r.None?
  {
    if |s| > 0 && (s[0] == '-' || s[0] == '+') then
      match LeadingNumber(s[1..])
      case None => None
      case Some(m) => Some(if s[0] == '-' then -(m as int) else m as int)
    else
      match LeadingNumber(s)
      case None => None
      case Some(m) => Some(m)
  }

  /** Reading back a printed integer gives the integer, whatever non-digit text follows. */
  lemma ParseSignedOfIntToString(n: int, rest: string)
    requires rest == [] || !IsDigit(rest[0])
    ensures ParseSigned(IntToString(n) + rest) == Some(n)
  {
    if n < 0 {
      ParseNegativeRoundTrip(n, rest);
    } else {
      ParseNonNegativeRoundTrip(n, rest);
    }
  }

  lemma ParseNegativeRoundTrip(n: int, rest: string)
    requires n < 0
    requires rest == [] || !IsDigit(rest[0])
    ensures ParseSigned(IntToString(n) + rest) == Some(n)
  {
    NegativeNumeral(n, rest);
    ParseAfterMinus(IntToString(n) + rest, NatToString(-n, 10) + rest, -n);
  }

  lemma NegativeNumeral(n: int, rest: string)
    requires n < 0
    requires rest == [] || !IsDigit(rest[0])
    ensures IntToString(n) + rest == ['-'] + (NatToString(-n, 10) + rest)
    ensures LeadingNumber(NatToString(-n, 10) + rest) == Some(-n)
  {
    var d := NatToString(-n, 10);
    assert IntToString(n) == "-" + d;
    assert ("-" + d) + rest == ['-'] + (d + rest);
    ValueOfNatToString(-n, 10);
    LeadingNumberOfDigits(d, rest);
  }

  lemma ParseNonNegativeRoundTrip(n: nat, rest: string)
    requires rest == [] || !IsDigit(rest[0])
    ensures ParseSigned(IntToString(n) + rest) == Some(n)
  {
    var digits := NatToString(n, 10);
    ValueOfNatToString(n, 10);
    LeadingNumberOfDigits(digits, rest);
  }

  lemma ParseAfterMinus(s: string, body: string, m: nat)
    requires s == ['-'] + body
    requires LeadingNumber(body) == Some(m)
    ensures ParseSigned(s) == Some(-(m as int))
  {
    assert s[1..] == body;
  }

  lemma LeadingNumberOfDigits(digits: string, rest: string)
    requires |digits| >= 1 && AllDigits(digits, 10)
    requires rest == [] || !IsDigit(rest[0])
    ensures LeadingNumber(digits + rest) == Some(Value(digits, 10))
  {
    DigitRunLength(digits, rest);
    assert (digits + rest)[..|digits|] == digits;
  }

  lemma {:induction false} DigitRunLength(digits: string, rest: string)
    requires AllDigits(digits, 10)
    requires rest == [] || !IsDigit(rest[0])
    ensures DigitPrefixLength(digits + rest) == |digits|
    decreases |digits|
  {
    if digits != [] {
      DigitRunLength(digits[1..], rest);
      assert (digits + rest)[1..] == digits[1..] + rest;
    } else {
      assert digits + rest == rest;
    }
  }

  lemma IntToStringInjective(a: int, b: int)
    requires IntToString(a) == IntToString(b)
    ensures a == b
  {
    ParseSignedOfIntToString(a, []);
    ParseSignedOfIntToString(b, []);
    assert IntToString(a) + [] == IntToString(a);
    assert IntToString(b) + [] == IntToString(b);
  }

  /** A printed integer consists of digits and at most a leading minus sign. */
  lemma IntToStringChars(n: int)
    ensures forall i :: 0 <= i < |IntToString(n)| ==> IsDigit(IntToString(n)[i]) || IntToString(n)[i] == '-'
  {
    if n >= 0 {
      NatToStringDigits(n, 10);
    }
    if n < 0 {
      var d := NatToString(-n, 10);
      NatToStringDigits(-n, 10);
      assert forall i :: 0 <= i < |d| ==> IsDigit(d[i]);
      assert IntToString(n) == "-" + d;
    }
  }

  /** JavaScript's `Math.round`: the nearest integer, halves rounded up. */
  function JsRound(x: real): (r: int)
    ensures r as real - 0.5 <= x < r as real + 0.5
  {
    (x + 0.5).Floor
  }
}
