/** The retest threshold test `float(rr_value.strip("%")) >= 3` (main_build.py, line 327),
    computed exactly on the decimal text instead of on an IEEE double. */
module Decimal {
  import opened Wrappers
  import opened Text

  /** The ASCII whitespace that `float()` ignores around a number. */
  const Whitespace: set<char> := {' ', '\t', '\n', '\r', '\U{000B}', '\U{000C}'}

  predicate AllDigits(s: string) {
    forall k :: 0 <= k < |s| ==> IsDigit(s[k])
  }

  /** The value of a string of decimal digits (0 for the empty string). */
  function DigitsValue(s: string): nat
    requires AllDigits(s)
  {
    if s == [] then 0 else DigitsValue(s[..|s| - 1]) * 10 + (s[|s| - 1] as int - '0' as int)
  }

  function Pow10(n: nat): nat {
    if n == 0 then 1 else 10 * Pow10(n - 1)
  }

  /** The index of the first `c` in `s`. */
  function IndexOf(s: string, c: char): (r: Option<nat>)
    ensures r.Some? ==> r.value < |s| && s[r.value] == c && c !in s[..r.value]
    ensures r.None? ==> c !in s
  {
    if s == [] then None
    else if s[0] == c then Some(0)
    else match IndexOf(s[1..], c)
      case None => None
      case Some(i) => Some(i + 1)
  }

  /** A decimal number: (-1)^negative * mantissa / 10^scale. */
  datatype Number = Number(negative: bool, mantissa: nat, scale: nat)

  /** `float()` on the forms `[sign] digits [. digits]` and `[sign] . digits`, surrounded by
      optional whitespace; anything else is not a number. */
  function ParseNumber(s: string): Option<Number> {
    var t := Strip(s, Whitespace);
    var signed := |t| > 0 && (t[0] == '-' || t[0] == '+');
    match ParseMagnitude(if signed then t[1..] else t)
    case None => None
    case Some(m) => Some(Number(signed && t[0] == '-', m.mantissa, m.scale))
  }

  /** The unsigned part `digits [. digits]` or `. digits`, split at its first dot. */
  function ParseMagnitude(body: string): (r: Option<Number>)
    ensures r.Some? ==> !r.value.negative
  {
    var dot := IndexOf(body, '.');
    var whole := if dot.Some? then body[..dot.value] else body;
    var frac := if dot.Some? then body[dot.value + 1..] else "";
    if AllDigits(whole) && AllDigits(frac) && |whole| + |frac| > 0
    then Some(Number(false, DigitsValue(whole + frac), |frac|))
    else None
  }

  /** The number is at least `k` (a negative zero is not). */
  predicate AtLeast(n: Number, k: nat) {
    !n.negative && n.mantissa >= k * Pow10(n.scale)
  }

  /** `float()` raises `ValueError` on a string that is not a number. */
  datatype ParseError = NotANumber(text: string)

  const ReasonThreshold := 3

  /** Whether a retest rate asks for a failure-reason paragraph: the rate with its '%'
      characters stripped from both ends, read as a number, is at least 3. */
  function NeedsReason(retest: string): Result<bool, ParseError> {
    var stripped := Strip(retest, {'%'});
    match ParseNumber(stripped)
    case None => Failure(NotANumber(stripped))
    case Some(n) => Success(AtLeast(n, ReasonThreshold))
  }

  lemma {:induction false} DigitsValueAppend(a: string, b: string)
    requires AllDigits(a) && AllDigits(b)
    ensures AllDigits(a + b)
    ensures DigitsValue(a + b) == DigitsValue(a) * Pow10(|b|) + DigitsValue(b)
    decreases |b|
  {
    if b == [] {
      assert a + b == a;
    } else {
      var b' := b[..|b| - 1];
      assert (a + b)[..|a + b| - 1] == a + b';
      assert (a + b)[|a + b| - 1] == b[|b| - 1];
      DigitsValueAppend(a, b');
      var d := b[|b| - 1] as int - '0' as int;
      assert DigitsValue(a + b) == DigitsValue(a + b') * 10 + d;
      assert DigitsValue(b) == DigitsValue(b') * 10 + d;
      assert Pow10(|b|) == 10 * Pow10(|b'|);
      ShiftDigit(DigitsValue(a), Pow10(|b'|), DigitsValue(b'), d);
    }
  }

  lemma AllDigitsAppend(a: string, b: string)
    requires AllDigits(a) && AllDigits(b)
    ensures AllDigits(a + b)
  {
    forall k | 0 <= k < |a + b| ensures IsDigit((a + b)[k]) {
      if k >= |a| {
        assert (a + b)[k] == b[k - |a|];
      }
    }
  }

  lemma ShiftDigit(x: int, p: int, y: int, d: int)
    ensures (x * p + y) * 10 + d == x * (10 * p) + (y * 10 + d)
  {
  }

  lemma {:induction false} DigitsValueBound(s: string)
    requires AllDigits(s)
    ensures DigitsValue(s) < Pow10(|s|)
    decreases |s|
  {
    if s != [] {
      DigitsValueBound(s[..|s| - 1]);
    }
  }

  /** With 0 <= f < p, the number w + f/p is at least k exactly when w is. */
  lemma WholePartDecides(w: nat, f: nat, p: nat, k: nat)
    requires 0 <= f < p
    ensures w * p + f >= k * p <==> w >= k
  {
    if w >= k {
      assert w * p >= k * p by { MultiplyMonotone(k, w, p); }
    } else {
      assert (w + 1) * p <= k * p by { MultiplyMonotone(w + 1, k, p); }
    }
  }

  lemma MultiplyMonotone(a: nat, b: nat, p: nat)
    requires a <= b
    ensures a * p <= b * p
  {
  }

  /** Stripping `chars` from `s + [c]` gives `s` when `c` is one of them and `s` neither
      starts nor ends with one of them. */
  lemma StripOneTrailing(s: string, c: char, chars: set<char>)
    requires s != [] && s[0] !in chars && s[|s| - 1] !in chars && c in chars
    ensures Strip(s + [c], chars) == s
  {
    var t := s + [c];
    assert t[0] == s[0] && t[|t| - 1] == c;
    assert StripLeft(t, chars) == t;
    assert t[..|t| - 1] == s;
    assert StripRight(t, chars) == StripRight(s, chars);
  }

  /** A digit string holds neither a dot nor a sign. */
  lemma DigitsHaveNoDot(s: string)
    requires AllDigits(s)
    ensures '.' !in s
  {
  }

  /** The text of a number written as digits with an optional fractional part. */
  function DecimalText(whole: string, frac: string, withDot: bool): string {
    whole + (if withDot then "." + frac else "")
  }

  /** Such a number starts with a digit and has no whitespace to strip. */
  lemma DecimalTextStripped(whole: string, frac: string, withDot: bool)
    requires whole != [] && AllDigits(whole) && AllDigits(frac)
    requires !withDot ==> frac == []
    ensures var number := DecimalText(whole, frac, withDot);
      Strip(number, Whitespace) == number && IsDigit(number[0])
  {
    var number := DecimalText(whole, frac, withDot);
    assert number[0] == whole[0];
    assert number[|number| - 1] !in Whitespace by {
      if withDot && frac != [] {
        assert number[|number| - 1] == frac[|frac| - 1];
      } else if !withDot {
        assert number[|number| - 1] == whole[|whole| - 1];
      }
    }
    StripNothing(number, Whitespace);
  }

  /** Such a number parses to its digits and the length of its fractional part. */
  lemma ParseDecimalText(whole: string, frac: string, withDot: bool)
    requires whole != [] && AllDigits(whole) && AllDigits(frac)
    requires !withDot ==> frac == []
    ensures AllDigits(whole + frac)
    ensures ParseNumber(DecimalText(whole, frac, withDot)) == Some(Number(false, DigitsValue(whole + frac), |frac|))
  {
    AllDigitsAppend(whole, frac);
    if withDot {
      ParseFraction(whole, frac);
    } else {
      assert whole + frac == whole;
      ParseWhole(whole);
    }
  }

  lemma ParseWhole(whole: string)
    requires whole != [] && AllDigits(whole)
    ensures ParseNumber(DecimalText(whole, "", false)) == Some(Number(false, DigitsValue(whole), 0))
  {
    DecimalTextStripped(whole, "", false);
    assert DecimalText(whole, "", false) == whole;
    ParseUnsigned(whole);
    DigitsHaveNoDot(whole);
    assert IndexOf(whole, '.') == None;
    assert whole + "" == whole;
  }

  lemma ParseFraction(whole: string, frac: string)
    requires whole != [] && AllDigits(whole) && AllDigits(frac)
    ensures ParseNumber(DecimalText(whole, frac, true)) == Some(Number(false, DigitsValue(whole + frac), |frac|))
  {
    var number := DecimalText(whole, frac, true);
    DecimalTextStripped(whole, frac, true);
    ParseUnsigned(number);
    DigitsHaveNoDot(whole);
    assert number[..|whole|] == whole && number[|whole|] == '.' && number[|whole| + 1..] == frac;
    IndexOfFirst(number, '.', |whole|);
    AllDigitsAppend(whole, frac);
  }

  /** Without surrounding whitespace and starting with a digit, the text is its own
      unsigned magnitude. */
  lemma ParseUnsigned(s: string)
    requires Strip(s, Whitespace) == s && |s| > 0 && IsDigit(s[0])
    ensures ParseNumber(s) == ParseMagnitude(s)
  {
  }

  /** A percentage written as digits with an optional fractional part ("3%", "2.9%",
      "12.50%") asks for a reason exactly when its whole part is at least 3. */
  lemma PercentThreshold(whole: string, frac: string, withDot: bool)
    requires whole != [] && AllDigits(whole) && AllDigits(frac)
    requires !withDot ==> frac == []
    ensures NeedsReason(DecimalText(whole, frac, withDot) + "%") == Success(DigitsValue(whole) >= ReasonThreshold)
  {
    var number := DecimalText(whole, frac, withDot);
    assert number[0] == whole[0];
    assert number[|number| - 1] != '%' by {
      if withDot && frac != [] {
        assert number[|number| - 1] == frac[|frac| - 1];
      } else if !withDot {
        assert number[|number| - 1] == whole[|whole| - 1];
      }
    }
    StripOneTrailing(number, '%', {'%'});
    ParseDecimalText(whole, frac, withDot);
    DigitsValueAppend(whole, frac);
    DigitsValueBound(frac);
    WholePartDecides(DigitsValue(whole), DigitsValue(frac), Pow10(|frac|), ReasonThreshold);
  }

  lemma IndexOfFirst(s: string, c: char, i: nat)
    requires i < |s| && s[i] == c && c !in s[..i]
    ensures IndexOf(s, c) == Some(i)
  {
    assert s[i] in s;
  }

  /** The examples of the threshold: "3%" asks for a reason, "2.9%" does not. */
  lemma ThresholdExamples()
    ensures NeedsReason("3%") == Success(true)
    ensures NeedsReason("2.9%") == Success(false)
    ensures NeedsReason("4%") == Success(true)
  {
    DigitPercent('3');
    assert ['3', '%'] == "3%";
    FractionExample();
    DigitPercent('4');
    assert ['4', '%'] == "4%";
  }

  /** A one-digit percentage asks for a reason exactly when the digit is at least 3. */
  lemma DigitPercent(d: char)
    requires IsDigit(d)
    ensures NeedsReason([d, '%']) == Success(d >= '3')
  {
    PercentThreshold([d], "", false);
    assert DecimalText([d], "", false) + "%" == [d, '%'];
    assert DigitsValue([d]) == d as int - '0' as int by {
      assert [d][..0] == [];
    }
  }

  lemma FractionExample()
    ensures NeedsReason("2.9%") == Success(false)
  {
    PercentThreshold("2", "9", true);
    assert DecimalText("2", "9", true) + "%" == "2.9%";
  }

  /** A rate that is not a number makes the findings stage fail. */
  lemma NotANumberExample()
    ensures NeedsReason("n/a").Failure?
  {
    assert Strip("n/a", {'%'}) == "n/a";
    assert Strip("n/a", Whitespace) == "n/a";
    assert !AllDigits("n/a") by { assert !IsDigit("n/a"[0]); }
  }
}
