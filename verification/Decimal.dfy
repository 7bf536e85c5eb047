/** Decimal numerals as they are printed and parsed back. */
module Decimal {
  import opened Wrappers

  const DIGITS := "0123456789"

  predicate IsDigit(c: char) {
    '0' <= c <= '9'
  }

  predicate AllDigits(s: string) {
    forall i :: 0 <= i < |s| ==> IsDigit(s[i])
  }

  function Printed(n: nat): (s: string)
    ensures s != [] && AllDigits(s)
  {
    if n < 10 then [DIGITS[n]] else Printed(n / 10) + [DIGITS[n % 10]]
  }

  function Value(s: string): nat
    requires AllDigits(s)
  {
    if s == [] then 0 else 10 * Value(s[..|s| - 1]) + (s[|s| - 1] as int - '0' as int)
  }

  /** What is left of a text without its plus sign. */
  function Unsigned(s: string): string {
    if s != [] && s[0] == '+' then s[1..] else s
  }

  /** Rust's `str::parse` into an unsigned 64-bit integer: digits after at most
      one plus sign, at least one of them, within range. */
  function ParsedU64(s: string): Option<nat> {
    var digits := Unsigned(s);
    if digits == [] || !AllDigits(digits) || Value(digits) >= 0x1_0000_0000_0000_0000 then None
    else Some(Value(digits))
  }

  lemma {:induction false} ValueOfPrinted(n: nat)
    ensures Value(Printed(n)) == n
  {
    assert forall d: nat :: d < 10 ==> DIGITS[d] as int == d + '0' as int;
    if n >= 10 {
      ValueOfPrinted(n / 10);
      assert Printed(n)[..|Printed(n)| - 1] == Printed(n / 10);
    } else {
      assert Printed(n)[..0] == [];
    }
  }

  /** What is printed is parsed back exactly. */
  lemma PrintedParses(n: nat)
    requires n < 0x1_0000_0000_0000_0000
    ensures ParsedU64(Printed(n)) == Some(n)
  {
    ValueOfPrinted(n);
    assert IsDigit(Printed(n)[0]);
  }

  predicate AllZeros(s: string) {
    forall i :: 0 <= i < |s| ==> s[i] == '0'
  }

  /** The text is the number's numeral, but for a plus sign and leading zeros. */
  predicate IsNumeralOf(s: string, sign: string, zeros: string, n: nat) {
    (sign == "" || sign == "+") && AllZeros(zeros) && s == sign + zeros + Printed(n)
  }

  lemma {:induction false} ZerosCountNothing(zeros: string, digits: string)
    requires AllZeros(zeros) && AllDigits(digits)
    ensures AllDigits(zeros + digits) && Value(zeros + digits) == Value(digits)
  {
    var all := zeros + digits;
    if digits == [] {
      assert all == zeros;
      if zeros != [] {
        ZerosCountNothing(zeros[..|zeros| - 1], []);
        assert zeros[..|zeros| - 1] + [] == zeros[..|zeros| - 1];
      }
    } else {
      ZerosCountNothing(zeros, digits[..|digits| - 1]);
      assert all[..|all| - 1] == zeros + digits[..|digits| - 1];
    }
  }

  function DigitOf(d: char): nat
    requires IsDigit(d)
  {
    d as int - '0' as int
  }

  lemma DigitPrints(d: char)
    requires IsDigit(d)
    ensures DigitOf(d) < 10 && DIGITS[DigitOf(d)] == d
  {
    assert forall k: nat :: k < 10 ==> DIGITS[k] as int == k + '0' as int;
  }

  lemma PrintedSnoc(tens: nat, d: char)
    requires IsDigit(d)
    ensures Printed(10 * tens + DigitOf(d)) == if tens == 0 then [d] else Printed(tens) + [d]
  {
    DigitPrints(d);
  }

  lemma ValueSnoc(digits: string, d: char)
    requires AllDigits(digits) && IsDigit(d)
    ensures AllDigits(digits + [d]) && Value(digits + [d]) == 10 * Value(digits) + DigitOf(d)
  {
    assert (digits + [d])[..|digits|] == digits;
  }

  lemma NumeralSnoc(zeros: string, tens: nat, d: char) returns (more: string)
    requires AllZeros(zeros) && IsDigit(d)
    ensures AllZeros(more) && (zeros + Printed(tens)) + [d] == more + Printed(10 * tens + DigitOf(d))
  {
    PrintedSnoc(tens, d);
    if tens == 0 {
      more := zeros + Printed(0);
      ZeroIsZeros(zeros);
    } else {
      more := zeros;
      Grouped(zeros, Printed(tens), [d]);
    }
  }

  lemma {:induction false} DigitsAreNumeral(digits: string) returns (zeros: string)
    requires digits != [] && AllDigits(digits)
    ensures AllZeros(zeros) && digits == zeros + Printed(Value(digits))
  {
    var init, d := digits[..|digits| - 1], digits[|digits| - 1];
    assert digits == init + [d];
    ValueSnoc(init, d);
    if init == [] {
      PrintedSnoc(0, d);
      zeros := [];
    } else {
      var earlier := DigitsAreNumeral(init);
      zeros := NumeralSnoc(earlier, Value(init), d);
    }
  }

  lemma ZeroIsZeros(zeros: string)
    requires AllZeros(zeros)
    ensures AllZeros(zeros + Printed(0))
  {
    assert Printed(0) == ['0'];
  }

  lemma SignAndRest(s: string) returns (sign: string)
    ensures (sign == "" || sign == "+") && s == sign + Unsigned(s)
  {
    sign := if s != [] && s[0] == '+' then "+" else "";
  }

  lemma ParsedIsNumeral(s: string) returns (sign: string, zeros: string)
    requires ParsedU64(s).Some?
    ensures IsNumeralOf(s, sign, zeros, ParsedU64(s).value)
  {
    sign := SignAndRest(s);
    zeros := DigitsAreNumeral(Unsigned(s));
    Grouped(sign, zeros, Printed(ParsedU64(s).value));
  }

  lemma Grouped(a: string, b: string, c: string)
    ensures a + (b + c) == a + b + c
  {
  }

  lemma NumeralParses(s: string, sign: string, zeros: string, n: nat)
    requires n < 0x1_0000_0000_0000_0000 && IsNumeralOf(s, sign, zeros, n)
    ensures ParsedU64(s) == Some(n)
  {
    var digits := zeros + Printed(n);
    ZerosCountNothing(zeros, Printed(n));
    ValueOfPrinted(n);
    Grouped(sign, zeros, Printed(n));
    assert IsDigit(digits[0]);
    SignGoes(sign, digits);
  }

  lemma SignGoes(sign: string, digits: string)
    requires (sign == "" || sign == "+") && digits != [] && digits[0] != '+'
    ensures Unsigned(sign + digits) == digits
  {
    if sign == "" { assert sign + digits == digits; } else { assert (sign + digits)[1..] == digits; }
  }

  /** Exactly what is parsed: numerals within 64 bits, with a plus sign or not,
      with leading zeros or not, as the number they are of. */
  lemma ParsesExactly(s: string, n: nat)
    ensures ParsedU64(s) == Some(n)
            <==> n < 0x1_0000_0000_0000_0000 && exists sign, zeros :: IsNumeralOf(s, sign, zeros, n)
  {
    if ParsedU64(s).Some? {
      var sign, zeros := ParsedIsNumeral(s);
    }
    forall sign, zeros | n < 0x1_0000_0000_0000_0000 && IsNumeralOf(s, sign, zeros, n)
      ensures ParsedU64(s) == Some(n)
    {
      NumeralParses(s, sign, zeros, n);
    }
  }
}
