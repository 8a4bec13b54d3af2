/**
 * A fraction fragment as two pieces of code see it: the parser takes its first
 * nine characters as one number, the warning scan takes its leading digits.
 * Which fragments both read alike is decided by their characters alone.
 */
module Fractions {
  import opened Wrappers
  import opened Text
  import opened Temporal

  predicate AllZeros(s: string) {
    forall i :: 0 <= i < |s| ==> s[i] == '0'
  }

  /** A plus sign and a number that is not nought. */
  predicate SignedNumber(s: string) {
    s != [] && s[0] == '+' && AllDigits(s[1..]) && !AllZeros(s[1..])
  }

  /**
   * The first nine characters, padded with zeros, are digits; or the leading
   * digits are zeros and the nine characters are not a signed number either.
   */
  predicate LegibleFragment(f: string) {
    AllDigits(NanoText(f)) || (AllZeros(DigitRun(f)) && !SignedNumber(NanoText(f)))
  }

  /** The first nine of the digits, as far as there are so many. */
  function FirstNine(digits: string): string {
    if |digits| <= NANO_DIGITS then digits else digits[..NANO_DIGITS]
  }

  lemma {:induction false} NoughtIsZeros(s: string)
    requires AllDigits(s)
    ensures Natural(s) == 0 <==> AllZeros(s)
  {
    if s != [] {
      NoughtIsZeros(s[..|s| - 1]);
      assert AllZeros(s) <==> AllZeros(s[..|s| - 1]) && s[|s| - 1] == '0';
    }
  }

  /** Digits are nought to nine places iff the first nine of them are zeros. */
  lemma NanosOfDigits(digits: string)
    requires AllDigits(digits)
    ensures FractionNanos(digits) == 0 <==> AllZeros(FirstNine(digits))
    ensures AllDigits(NanoText(digits)) && FractionNanos(digits) == Natural(NanoText(digits))
  {
    var t := NanoText(digits);
    assert forall i :: 0 <= i < NANO_DIGITS ==> t[i] == if i < |digits| then digits[i] else '0';
    ParseDigits(t, U32);
    BoundedNatural(t);
    assert TenTo(9) == 1000000000;
    NoughtIsZeros(t);
    assert AllZeros(t) <==> AllZeros(FirstNine(digits));
  }

  /** Nine digits in front are also the scan's, whatever follows them. */
  lemma NineDigitsInFront(f: string)
    requires AllDigits(NanoText(f))
    ensures NanoText(DigitRun(f)) == NanoText(f)
  {
    var run := DigitRun(f);
    var t := NanoText(f);
    assert forall i :: 0 <= i < NANO_DIGITS ==> t[i] == if i < |f| then f[i] else '0';
    assert forall i :: 0 <= i < NANO_DIGITS && i < |f| ==> f[i] == t[i] && IsDigit(t[i]);
    assert |run| == |f| || |run| >= NANO_DIGITS;
  }

  /** Something else among the first nine characters leaves only a signed number to be read. */
  lemma NanosOfOthers(f: string)
    requires !AllDigits(NanoText(f))
    ensures |DigitRun(f)| < NANO_DIGITS
    ensures FractionNanos(f) == 0 <==> !SignedNumber(NanoText(f))
    ensures SignedNumber(NanoText(f)) ==> DigitRun(f) == []
  {
    hide Natural;
    var run := DigitRun(f);
    var t := NanoText(f);
    assert forall i :: 0 <= i < NANO_DIGITS ==> t[i] == if i < |f| then f[i] else '0';
    var i :| 0 <= i < NANO_DIGITS && !IsDigit(t[i]);
    assert i < |f| && t[i] == f[i];
    assert |run| <= i;
    assert !IsDigit('+');
    if t[0] == '+' && AllDigits(t[1..]) {
      BoundedNatural(t[1..]);
      NoughtIsZeros(t[1..]);
      assert TenTo(8) == 100000000;
    }
  }

  /** The parser and the scan read the same nanoseconds of a fragment iff it is legible. */
  lemma LegibleIffSame(f: string)
    ensures LegibleFragment(f) <==> FractionNanos(f) == FractionNanos(DigitRun(f))
    ensures !LegibleFragment(f) ==> |DigitRun(f)| < NANO_DIGITS
  {
    hide FractionNanos, NanoText, SignedNumber;
    if AllDigits(NanoText(f)) {
      NineDigitsInFront(f);
      SameText(f, DigitRun(f));
    } else {
      NanosOfOthers(f);
      NanosOfDigits(DigitRun(f));
      if SignedNumber(NanoText(f)) {
        assert AllZeros(DigitRun(f));
      }
    }
  }

  lemma SameText(a: string, b: string)
    requires NanoText(a) == NanoText(b)
    ensures FractionNanos(a) == FractionNanos(b)
  {
  }

  /** A whole number between a number and its successor is the floor. */
  lemma FloorIsUnique(n: int, floor: int, w: real)
    requires floor as real <= w < floor as real + 1.0
    ensures n as real == w ==> n == floor
  {
  }
}
