/**
 * The MM:SS rendering of a number of seconds (CountdownTimer::formatTime),
 * with a decoder that reads such a string back.
 *
 * The rendering is that of a C++ `std::ostringstream` fed with
 * `std::setfill('0') << std::setw(2) << minutes << ":" << ... << seconds`,
 * where `minutes` and `seconds` come from C++ `/` and `%`, which truncate
 * toward zero.
 */
module TimeFormat {
  import opened Wrappers

  /** C++ integer division: truncates toward zero. */
  function TruncDiv(a: int, b: int): int
    requires b > 0
  {
    if a >= 0 then a / b else -((-a) / b)
  }

  /** C++ integer remainder: has the sign of the dividend. */
  function TruncRem(a: int, b: int): int
    requires b > 0
  {
    a - b * TruncDiv(a, b)
  }

  predicate IsDigit(c: char) {
    '0' <= c <= '9'
  }

  predicate AllDigits(s: string) {
    forall i :: 0 <= i < |s| ==> IsDigit(s[i])
  }

  function DigitChar(d: int): (c: char)
    requires 0 <= d < 10
    ensures IsDigit(c)
  {
    (('0' as int) + d) as char
  }

  function DigitValue(c: char): int
    requires IsDigit(c)
  {
    (c as int) - ('0' as int)
  }

  /** Decimal digits of a natural number, most significant first, no leading zero. */
  function NatToDecimal(n: nat): (s: string)
    ensures |s| >= 1 && AllDigits(s)
  {
    if n < 10 then [DigitChar(n)] else NatToDecimal(n / 10) + [DigitChar(n % 10)]
  }

  /** `operator<<` for an `int`: a minus sign before the digits of a negative value. */
  function IntToDecimal(i: int): string
  {
    if i < 0 then "-" + NatToDecimal(-i) else NatToDecimal(i)
  }

  /** The effect of `setfill('0') << setw(width)`: zeros on the left up to `width` characters. */
  function PadZero(s: string, width: nat): (r: string)
    decreases width - |s|
  {
    if |s| >= width then s else PadZero(['0'] + s, width)
  }

  /**
   * formatTime: minutes and seconds, each zero-padded to two characters,
   * around a colon. The layout and the decoding are proved below.
   */
  function FormatTime(seconds: int): (t: string)
    ensures ':' in t
  {
    PadZero(IntToDecimal(TruncDiv(seconds, 60)), 2) + ":" + PadZero(IntToDecimal(TruncRem(seconds, 60)), 2)
  }

  /** Value of a string of decimal digits, most significant first (leading zeros allowed). */
  function DigitsValue(s: string): nat
    requires AllDigits(s)
  {
    if s == [] then 0 else 10 * DigitsValue(s[..|s| - 1]) + DigitValue(s[|s| - 1])
  }

  /**
   * Reads an `MM:SS` string: a non-empty run of digits, a colon, and exactly
   * two digits below 60. Anything else is None.
   */
  function DecodeTime(t: string): Option<int>
  {
    if |t| < 4 || t[|t| - 3] != ':' then None
    else
      var mm, ss := t[..|t| - 3], t[|t| - 2..];
      if !AllDigits(mm) || !AllDigits(ss) then None
      else if DigitsValue(ss) >= 60 then None
      else Some(DigitsValue(mm) * 60 + DigitsValue(ss))
  }

  lemma {:induction false} PadZeroShape(s: string, width: nat)
    ensures |PadZero(s, width)| == if |s| >= width then |s| else width
    ensures AllDigits(s) ==> AllDigits(PadZero(s, width))
    decreases width - |s|
  {
    if |s| < width {
      PadZeroShape(['0'] + s, width);
    }
  }

  lemma {:induction false} LeadingZero(s: string)
    requires AllDigits(s)
    ensures AllDigits(['0'] + s) && DigitsValue(['0'] + s) == DigitsValue(s)
    decreases |s|
  {
    if s != [] {
      var z := ['0'] + s;
      assert z[..|z| - 1] == ['0'] + s[..|s| - 1];
      LeadingZero(s[..|s| - 1]);
    }
  }

  lemma {:induction false} PadZeroValue(s: string, width: nat)
    requires AllDigits(s)
    ensures AllDigits(PadZero(s, width)) && DigitsValue(PadZero(s, width)) == DigitsValue(s)
    decreases width - |s|
  {
    if |s| < width {
      LeadingZero(s);
      PadZeroValue(['0'] + s, width);
    }
  }

  /** Reading back the decimal digits of `n` gives `n`. */
  lemma {:induction false} NatToDecimalValue(n: nat)
    ensures DigitsValue(NatToDecimal(n)) == n
  {
    if n >= 10 {
      var s := NatToDecimal(n);
      assert s[..|s| - 1] == NatToDecimal(n / 10);
      NatToDecimalValue(n / 10);
    }
  }

  /**
   * For a non-negative count, the string is the minutes zero-padded to at
   * least two digits, a colon, and the seconds as exactly two digits.
   */
  lemma FormatTimeLayout(seconds: int)
    requires seconds >= 0
    ensures var t := FormatTime(seconds);
      |t| >= 5 && t[|t| - 3] == ':' &&
      AllDigits(t[..|t| - 3]) && AllDigits(t[|t| - 2..]) &&
      t[..|t| - 3] == PadZero(NatToDecimal(seconds / 60), 2) &&
      t[|t| - 2..] == PadZero(NatToDecimal(seconds % 60), 2)
  {
    var m, s := NatToDecimal(seconds / 60), NatToDecimal(seconds % 60);
    PadZeroShape(m, 2);
    PadZeroShape(s, 2);
    assert |s| == 1 || |s| == 2 by {
      if seconds % 60 >= 10 {
        assert NatToDecimal(seconds % 60) == NatToDecimal(seconds % 60 / 10) + [DigitChar(seconds % 60 % 10)];
      }
    }
    var t := FormatTime(seconds);
    assert t == PadZero(m, 2) + ":" + PadZero(s, 2);
    assert t[..|t| - 3] == PadZero(m, 2);
    assert t[|t| - 2..] == PadZero(s, 2);
  }

  /** Splitting the rendering at its colon and decoding gives back the count. */
  lemma FormatTimeRoundTrip(seconds: int)
    requires seconds >= 0
    ensures DecodeTime(FormatTime(seconds)) == Some(seconds)
  {
    FormatTimeLayout(seconds);
    var t := FormatTime(seconds);
    PadZeroValue(NatToDecimal(seconds / 60), 2);
    PadZeroValue(NatToDecimal(seconds % 60), 2);
    NatToDecimalValue(seconds / 60);
    NatToDecimalValue(seconds % 60);
  }

  /** Distinct non-negative counts render differently. */
  lemma FormatTimeInjective(a: int, b: int)
    requires a >= 0 && b >= 0 && FormatTime(a) == FormatTime(b)
    ensures a == b
  {
    FormatTimeRoundTrip(a);
    FormatTimeRoundTrip(b);
  }

  lemma FormatTimeExamples()
    ensures FormatTime(65) == "01:05"
    ensures FormatTime(0) == "00:00"
  {
  }

  /** Past an hour the minutes keep counting; a negative count gives negative fields. */
  lemma FormatTimeEdgeExamples()
    ensures FormatTime(3661) == "61:01"
    ensures FormatTime(-65) == "-1:-5"
  {
  }
}
