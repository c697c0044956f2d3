/** Unsigned numerals as `format!` writes them: `{}` prints the shortest
    decimal numeral, `{:x}` the shortest lower-case hexadecimal one, and a
    width with the `0` flag pads on the left with zeros. The base is a
    parameter, so decimal and hexadecimal share one definition.
 */
module Numerals {
  import opened Options
  import opened Words

  predicate IsBase(base: nat) { 2 <= base <= 16 }

  /** The digit character for a value below 16. */
  function Digit(d: nat): (ch: char)
    requires d < 16
  {
    if d < 10 then ('0' as int + d) as char else ('a' as int + d - 10) as char
  }

  /** The value of a digit character in `base`, if it is one. */
  function DigitValue(ch: char, base: nat): (v: Option<nat>)
    requires IsBase(base)
    ensures v.Some? ==> v.value < base
  {
    if '0' <= ch <= '9' && (ch as int - '0' as int) < base then Some(ch as int - '0' as int)
    else if 'a' <= ch <= 'f' && (ch as int - 'a' as int) + 10 < base then Some(ch as int - 'a' as int + 10)
    else None
  }

  lemma DigitRoundTrip(d: nat, base: nat)
    requires IsBase(base) && d < base
    ensures DigitValue(Digit(d), base) == Some(d)
  {
  }

  lemma DigitValueRoundTrip(ch: char, base: nat)
    requires IsBase(base) && DigitValue(ch, base).Some?
    ensures Digit(DigitValue(ch, base).value) == ch
  {
  }

  predicate AllDigits(s: string, base: nat)
    requires IsBase(base)
  {
    forall i :: 0 <= i < |s| ==> DigitValue(s[i], base).Some?
  }

  /** The shortest numeral of n in `base`. */
  function Digits(n: nat, base: nat): (s: string)
    requires IsBase(base)
    ensures |s| >= 1 && AllDigits(s, base)
    decreases n
  {
    DivStep(n, base);
    DigitRoundTrip(n % base, base);
    if n < base then [Digit(n)]
    else Digits(n / base, base) + [Digit(n % base)]
  }

  /** Euclidean division by the base, spelt out for the solver. */
  lemma DivStep(n: nat, base: nat)
    requires IsBase(base)
    ensures n == n / base * base + n % base && 0 <= n % base < base
    ensures n >= base ==> 1 <= n / base < n
  {
    var q, r := n / base, n % base;
    assert n == q * base + r;
    if n >= base {
      assert q * base > 0;
      assert q < n by {
        assert q * base >= q * 2;
      }
    }
  }

  /** The number a numeral denotes; the last digit is the least significant. */
  function Value(s: string, base: nat): nat
    requires IsBase(base) && AllDigits(s, base)
  {
    if s == [] then 0
    else Value(s[..|s| - 1], base) * base + DigitValue(s[|s| - 1], base).value
  }

  /** Reading a printed number gives the number back. */
  lemma {:induction false} ValueOfDigits(n: nat, base: nat)
    requires IsBase(base)
    ensures Value(Digits(n, base), base) == n
  {
    var s := Digits(n, base);
    DigitRoundTrip(n % base, base);
    DivStep(n, base);
    if n >= base {
      assert s[..|s| - 1] == Digits(n / base, base);
      ValueOfDigits(n / base, base);
    }
  }

  lemma DivOfDigit(v: nat, d: nat, base: nat)
    requires IsBase(base) && d < base
    ensures (v * base + d) / base == v && (v * base + d) % base == d
    ensures v >= 1 ==> v * base + d >= base
  {
    var n := v * base + d;
    DivModUnique(n, base, v, d);
    if v >= 1 {
      MulAtLeast(v, base, n - d);
    }
  }

  /** A positive multiple of base is at least base. */
  lemma MulAtLeast(v: nat, base: nat, p: int)
    requires v >= 1 && p == v * base
    ensures p >= base
  {
  }

  /** A numeral without a superfluous leading zero. */
  predicate Canonical(s: string, base: nat)
    requires IsBase(base)
  {
    |s| >= 1 && AllDigits(s, base) && (s[0] == '0' ==> |s| == 1)
  }

  lemma {:induction false} ValuePositive(s: string, base: nat)
    requires IsBase(base) && AllDigits(s, base) && |s| >= 1
    requires DigitValue(s[0], base).value != 0
    ensures Value(s, base) >= 1
    decreases |s|
  {
    if |s| > 1 {
      var v := Value(s[..|s| - 1], base);
      ValuePositive(s[..|s| - 1], base);
      MulAtLeast(v, base, v * base);
    }
  }

  /** Printing the value of a canonical numeral gives the numeral back, so
      `Digits` is a bijection onto canonical numerals. */
  lemma {:induction false} DigitsOfValue(s: string, base: nat)
    requires IsBase(base) && Canonical(s, base)
    ensures Digits(Value(s, base), base) == s
    decreases |s|
  {
    var last := s[|s| - 1];
    var d := DigitValue(last, base).value;
    DigitValueRoundTrip(last, base);
    if |s| > 1 {
      var p := s[..|s| - 1];
      assert p[0] == s[0];
      assert DigitValue(s[0], base).value != 0 by {
        DigitValueRoundTrip(s[0], base);
      }
      ValuePositive(p, base);
      DigitsOfValue(p, base);
      var v := Value(p, base);
      assert Value(s, base) == v * base + d;
      DivOfDigit(v, d, base);
      assert s == p + [last];
    }
  }

  function Repeat(ch: char, k: nat): (s: string)
    ensures |s| == k && forall i :: 0 <= i < k ==> s[i] == ch
  {
    if k == 0 then [] else [ch] + Repeat(ch, k - 1)
  }

  /** `{:0>width}`: pad on the left with zeros to at least `width` characters. */
  function PadZeros(s: string, width: nat): (p: string)
    ensures |p| == if |s| < width then width else |s|
    ensures p[|p| - |s|..] == s
    ensures forall i :: 0 <= i < |p| - |s| ==> p[i] == '0'
  {
    if |s| < width then Repeat('0', width - |s|) + s else s
  }

  /** Leading zeros do not change the value of a numeral. */
  lemma {:induction false} LeadingZeros(k: nat, s: string, base: nat)
    requires IsBase(base) && AllDigits(s, base)
    ensures AllDigits(Repeat('0', k) + s, base)
    ensures Value(Repeat('0', k) + s, base) == Value(s, base)
    decreases |s|, k
  {
    var z := Repeat('0', k);
    assert AllDigits(z + s, base) by {
      forall i | 0 <= i < |z + s|
        ensures DigitValue((z + s)[i], base).Some?
      {
        if i >= |z| {
          assert (z + s)[i] == s[i - |z|];
        }
      }
    }
    if s == [] {
      assert z + s == z;
      if k > 0 {
        assert z[..k - 1] == Repeat('0', k - 1) + [];
        LeadingZeros(k - 1, [], base);
      }
    } else {
      var p := s[..|s| - 1];
      assert (z + s)[..|z + s| - 1] == z + p;
      LeadingZeros(k, p, base);
    }
  }
}
