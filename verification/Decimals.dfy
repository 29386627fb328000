// Unsigned numbers and their decimal digits.
module Decimals {
  import opened Sequences

  type digit = d: int | 0 <= d < 10

  function Digits(n: nat): (digits: seq<digit>)
    ensures digits != []
  {
    if n < 10 then [n] else Digits(n / 10) + [n % 10]
  }

  function Value(digits: seq<digit>): nat {
    if digits == [] then 0 else Value(digits[..|digits| - 1]) * 10 + digits[|digits| - 1]
  }

  function Pow10(n: nat): nat {
    if n == 0 then 1 else 10 * Pow10(n - 1)
  }

  // What was written reads back.
  lemma {:induction false} ValueOfDigits(n: nat)
    ensures Value(Digits(n)) == n
  {
    var digits := Digits(n);
    if n < 10 {
      assert digits[..0] == [];
    } else {
      ValueOfDigits(n / 10);
      assert digits[..|digits| - 1] == Digits(n / 10);
    }
  }

  // Nothing stands ahead of a number's digits but for zero itself.
  lemma {:induction false} NoLeadingZero(n: nat)
    ensures Digits(n)[0] == 0 ==> n == 0 && Digits(n) == [0]
  {
    if n >= 10 {
      NoLeadingZero(n / 10);
    }
  }

  function Zeros(k: nat): (zeros: seq<digit>)
    ensures |zeros| == k && forall i :: 0 <= i < k ==> zeros[i] == 0
  {
    seq(k, i => 0)
  }

  // Any digits are some zeros and then those of their value.
  lemma {:induction false} AfterZeros(digits: seq<digit>) returns (k: nat)
    requires digits != []
    ensures digits == Zeros(k) + Digits(Value(digits))
  {
    var front, last := digits[..|digits| - 1], digits[|digits| - 1];
    if front == [] {
      k := 0;
      assert Value(digits) == last;
    } else {
      k := AfterZeros(front);
      if Value(front) == 0 {
        k := k + 1;
        assert Zeros(k) == Zeros(k - 1) + [0];
      } else {
        assert Digits(Value(digits)) == Digits(Value(front)) + [last];
        assert digits == Zeros(k) + Digits(Value(front)) + [last];
      }
    }
  }

  lemma {:induction false} ValueAfterZeros(k: nat, digits: seq<digit>)
    ensures Value(Zeros(k) + digits) == Value(digits)
    decreases |digits|, k
  {
    var all := Zeros(k) + digits;
    if digits != [] {
      assert all[..|all| - 1] == Zeros(k) + digits[..|digits| - 1];
      ValueAfterZeros(k, digits[..|digits| - 1]);
    } else if k > 0 {
      assert all[..|all| - 1] == Zeros(k - 1) + [];
      ValueAfterZeros(k - 1, []);
    }
  }

  // So many digits stay below ten to that power.
  lemma {:induction false} ValueBound(digits: seq<digit>)
    ensures Value(digits) < Pow10(|digits|)
  {
    if digits != [] {
      ValueBound(digits[..|digits| - 1]);
    }
  }

  // -- As text ------------------------------------------------------------------------

  // Characters and bytes alike by their codes: '0' to '9', and '+'.
  const ZERO := '0' as int
  const PLUS_SIGN := '+' as int

  predicate IsDigitCode(c: int) {
    ZERO <= c < ZERO + 10
  }

  predicate AreDigits(s: seq<int>) {
    forall i :: 0 <= i < |s| ==> IsDigitCode(s[i])
  }

  function DecimalCodes(n: nat): (s: seq<int>)
    ensures s != [] && AreDigits(s)
  {
    seq(|Digits(n)|, i requires 0 <= i < |Digits(n)| => ZERO + Digits(n)[i])
  }

  lemma DigitIsWritten(d: digit)
    ensures DecimalCodes(d) == ["0123456789"[d] as int]
  {
    assert Digits(d) == [d];
  }

  function DigitsOf(s: seq<int>): (digits: seq<digit>)
    requires AreDigits(s)
    ensures |digits| == |s|
  {
    seq(|s|, i requires 0 <= i < |s| => s[i] - ZERO)
  }

  // Rust's `parse` for an unsigned integer up to `max`.
  function ParseCodes(s: seq<int>, max: nat): (n: Option<nat>)
    ensures n.Some? ==> n.value <= max
  {
    var digits := if s != [] && s[0] == PLUS_SIGN then s[1..] else s;
    if digits == [] || !AreDigits(digits) then None
    else
      var n := Value(DigitsOf(digits));
      if n <= max then Some(n) else None
  }

  // What was written as a decimal reads back.
  lemma CodesReadBack(n: nat, max: nat)
    requires n <= max
    ensures ParseCodes(DecimalCodes(n), max) == Some(n)
  {
    var codes := DecimalCodes(n);
    assert IsDigitCode(codes[0]);
    assert DigitsOf(codes) == Digits(n);
    ValueOfDigits(n);
  }

  function ZeroCodes(k: nat): (codes: seq<int>)
    ensures |codes| == k && forall i :: 0 <= i < k ==> codes[i] == ZERO
  {
    seq(k, i => ZERO)
  }

  // A number as it may be written: a plus sign or none, zeros, its digits.
  function WrittenCodes(plus: bool, k: nat, n: nat): seq<int> {
    if plus then [PLUS_SIGN] + (ZeroCodes(k) + DecimalCodes(n)) else ZeroCodes(k) + DecimalCodes(n)
  }

  lemma CodesAfterZeros(codes: seq<int>) returns (k: nat)
    requires codes != [] && AreDigits(codes)
    ensures codes == ZeroCodes(k) + DecimalCodes(Value(DigitsOf(codes)))
  {
    var digits := DigitsOf(codes);
    k := AfterZeros(digits);
    var written := ZeroCodes(k) + DecimalCodes(Value(digits));
    assert |written| == |codes|;
    forall i | 0 <= i < |codes|
      ensures codes[i] == written[i]
    {
      assert digits[i] == (Zeros(k) + Digits(Value(digits)))[i];
    }
  }

  lemma ValueOfCodes(k: nat, n: nat)
    ensures var codes := ZeroCodes(k) + DecimalCodes(n);
            codes != [] && AreDigits(codes) && codes[0] != PLUS_SIGN && Value(DigitsOf(codes)) == n
  {
    var codes := ZeroCodes(k) + DecimalCodes(n);
    assert IsDigitCode(codes[0]);
    assert DigitsOf(codes) == Zeros(k) + Digits(n);
    ValueAfterZeros(k, Digits(n));
    ValueOfDigits(n);
  }

  // Exactly the numbers up to `max` are read, however many zeros stand ahead, and
  // nothing else is.
  lemma ParsesIff(s: seq<int>, max: nat, n: nat)
    ensures ParseCodes(s, max) == Some(n) <==> n <= max && exists plus, k: nat :: s == WrittenCodes(plus, k, n)
  {
    if ParseCodes(s, max) == Some(n) {
      var plus := s[0] == PLUS_SIGN;
      var codes := if plus then s[1..] else s;
      var k := CodesAfterZeros(codes);
      assert s == WrittenCodes(plus, k, n);
    }
    if plus, k: nat :| n <= max && s == WrittenCodes(plus, k, n) {
      ValueOfCodes(k, n);
      var codes := ZeroCodes(k) + DecimalCodes(n);
      assert plus ==> s[1..] == codes;
    }
  }

  lemma CodesInjective(i: nat, j: nat)
    requires DecimalCodes(i) == DecimalCodes(j)
    ensures i == j
  {
    CodesReadBack(i, i + j);
    CodesReadBack(j, i + j);
  }

  // A number is below ten to the power of its characters.
  lemma ParsedBound(s: seq<int>, max: nat)
    requires ParseCodes(s, max).Some?
    ensures exists digits: nat :: digits <= |s| && ParseCodes(s, max).value < Pow10(digits)
  {
    var digits := if s[0] == PLUS_SIGN then s[1..] else s;
    ValueBound(DigitsOf(digits));
    assert |digits| <= |s| && ParseCodes(s, max).value < Pow10(|digits|);
  }
}
