/**
 * The ABHA number format `DD-DDDD-DDDD-DDDD` (two, four, four and four ASCII digits joined by
 * dashes): the check `isValidAbhaId` of app.js and `isValidAbhaIdFormat` of
 * src/services/patientApi.js (the same regular expression), and the input formatter
 * `formatAbhaId` of src/services/patientApi.js, which src/pages/Login.jsx repeats verbatim.
 */
module Abha {
  import opened Text

  /** Length of a formatted ABHA number. */
  const ABHA_LENGTH := 17

  /** Number of digits in an ABHA number. */
  const ABHA_DIGITS := 14

  /** A dash sits at these positions of a formatted ABHA number. */
  predicate DashPosition(i: int)
  {
    i == 2 || i == 7 || i == 12
  }

  /** `/^\d{2}-\d{4}-\d{4}-\d{4}$/.test(s)` */
  predicate IsValidAbhaId(s: string)
  {
    |s| == ABHA_LENGTH &&
    forall i | 0 <= i < |s| :: if DashPosition(i) then s[i] == '-' else IsDigit(s[i])
  }

  /** `d.replace(/(\d{2})(\d{4})(\d{4})(\d{4})/, '$1-$2-$3-$4')` on at least 14 digits:
      the first 14 are grouped, the rest follow as they are. */
  function Grouped(d: string): (r: string)
    requires |d| >= ABHA_DIGITS
  {
    d[..2] + "-" + d[2..6] + "-" + d[6..10] + "-" + d[10..14] + d[14..]
  }

  /** `formatAbhaId(value)`: keep the digits; group them once there are at least 14. */
  function FormatAbhaId(value: string): (r: string)
  {
    var d := Digits(value);
    if |d| >= ABHA_DIGITS then Grouped(d) else d
  }

  // ---------------------------------------------------------------------------------------

  /** Dropping a dash between two parts leaves their digits. */
  lemma DigitsAroundDash(a: string, b: string)
    ensures Digits(a + "-" + b) == Digits(a) + Digits(b)
  {
    DigitsAppend(a + "-", b);
    DigitsAppend(a, "-");
    assert Digits("-") == [];
  }

  lemma GroupedFacts(d: string)
    requires |d| >= ABHA_DIGITS && AllDigits(d)
    ensures |Grouped(d)| == |d| + 3
    ensures forall i | 0 <= i < |Grouped(d)| :: if i < ABHA_LENGTH && DashPosition(i) then Grouped(d)[i] == '-' else IsDigit(Grouped(d)[i])
    ensures Digits(Grouped(d)) == d
  {
    GroupedShape(d);
    GroupedDigits(d);
  }

  lemma GroupedShape(d: string)
    requires |d| >= ABHA_DIGITS && AllDigits(d)
    ensures |Grouped(d)| == |d| + 3
    ensures forall i | 0 <= i < |Grouped(d)| :: if i < ABHA_LENGTH && DashPosition(i) then Grouped(d)[i] == '-' else IsDigit(Grouped(d)[i])
  {
    var g := Grouped(d);
    forall i | 0 <= i < |g|
      ensures if i < ABHA_LENGTH && DashPosition(i) then g[i] == '-' else IsDigit(g[i])
    {
      if i < 2 { assert g[i] == d[i]; }
      else if i == 2 || i == 7 || i == 12 { }
      else if i < 7 { assert g[i] == d[i - 1]; }
      else if i < 12 { assert g[i] == d[i - 2]; }
      else { assert g[i] == d[i - 3]; }
    }
  }

  lemma GroupedDigits(d: string)
    requires |d| >= ABHA_DIGITS && AllDigits(d)
    ensures Digits(Grouped(d)) == d
  {
    var a, b, c, e, rest := d[..2], d[2..6], d[6..10], d[10..14], d[14..];
    DigitsOfDigits(a);
    DigitsOfDigits(b);
    DigitsOfDigits(c);
    DigitsOfDigits(e);
    DigitsOfDigits(rest);
    var x1 := a + "-" + b;
    DigitsAroundDash(a, b);
    assert Digits(x1) == a + b;
    var x2 := x1 + "-" + c;
    DigitsAroundDash(x1, c);
    assert Digits(x2) == a + b + c;
    var x3 := x2 + "-" + e;
    DigitsAroundDash(x2, e);
    assert Digits(x3) == a + b + c + e;
    assert Grouped(d) == x3 + rest;
    DigitsAppend(x3, rest);
    assert Digits(Grouped(d)) == a + b + c + e + rest;
    assert d[..6] == a + b;
    assert d[..10] == d[..6] + c;
    assert d[..14] == d[..10] + e;
    assert d == d[..14] + rest;
  }

  /** Formatting neither drops, adds nor reorders digits: stripping the non-digits from the
      result gives back the digits of the input. */
  lemma FormatKeepsDigits(value: string)
    ensures Digits(FormatAbhaId(value)) == Digits(value)
  {
    var d := Digits(value);
    if |d| >= ABHA_DIGITS {
      GroupedFacts(d);
    } else {
      DigitsOfDigits(d);
    }
  }

  /** The result has three characters more than the digits once there are 14 or more, and is
      the bare digits otherwise. */
  lemma FormatLength(value: string)
    ensures |Digits(value)| < ABHA_DIGITS ==> FormatAbhaId(value) == Digits(value)
    ensures |FormatAbhaId(value)| == |Digits(value)| + (if |Digits(value)| >= ABHA_DIGITS then 3 else 0)
  {
    if |Digits(value)| >= ABHA_DIGITS {
      GroupedFacts(Digits(value));
    }
  }

  /** Exactly 14 digits always format to a valid ABHA number. */
  lemma FormatFourteenIsValid(value: string)
    requires |Digits(value)| == ABHA_DIGITS
    ensures IsValidAbhaId(FormatAbhaId(value))
  {
    GroupedFacts(Digits(value));
  }

  /** Formatting is idempotent. */
  lemma FormatIdempotent(value: string)
    ensures FormatAbhaId(FormatAbhaId(value)) == FormatAbhaId(value)
  {
    FormatKeepsDigits(value);
  }

  lemma ValidHasFourteenDigits(s: string)
    requires IsValidAbhaId(s)
    ensures Digits(s) == s[..2] + s[3..7] + s[8..12] + s[13..]
  {
    var a, b, c, e := s[..2], s[3..7], s[8..12], s[13..];
    assert s == a + "-" + b + "-" + c + "-" + e;
    assert AllDigits(a) && AllDigits(b) && AllDigits(c) && AllDigits(e);
    DigitsAroundDash(a + "-" + b + "-" + c, e);
    DigitsAroundDash(a + "-" + b, c);
    DigitsAroundDash(a, b);
    DigitsOfDigits(a);
    DigitsOfDigits(b);
    DigitsOfDigits(c);
    DigitsOfDigits(e);
  }

  lemma ValidIsGrouped(s: string)
    requires IsValidAbhaId(s)
    ensures |Digits(s)| == ABHA_DIGITS && Grouped(Digits(s)) == s
  {
    ValidHasFourteenDigits(s);
    var d := Digits(s);
    var a, b, c, e := s[..2], s[3..7], s[8..12], s[13..];
    assert d == a + b + c + e;
    assert |d| == ABHA_DIGITS;
    assert d[..2] == a && d[2..6] == b && d[6..10] == c && d[10..14] == e && d[14..] == [];
    assert s == a + "-" + b + "-" + c + "-" + e;
  }

  /** The valid ABHA numbers are exactly the fixed points of the formatter that carry 14
      digits. */
  lemma ValidIffFormatted(s: string)
    ensures IsValidAbhaId(s) <==> |Digits(s)| == ABHA_DIGITS && FormatAbhaId(s) == s
  {
    if IsValidAbhaId(s) {
      ValidIsGrouped(s);
    }
    if |Digits(s)| == ABHA_DIGITS && FormatAbhaId(s) == s {
      FormatFourteenIsValid(s);
    }
  }

  // ---------------------------------------------------------------------------------------
  // The cases pinned by tests/patientApi.test.js and tests/api.test.js

  lemma ValidExamples()
    ensures IsValidAbhaId("12-3456-7890-1234")
    ensures !IsValidAbhaId("invalid")
    ensures !IsValidAbhaId("12-345-789-123")
    ensures !IsValidAbhaId("invalid-id")
  {
  }

  lemma FormatAllDigits(v: string)
    requires AllDigits(v) && |v| == ABHA_DIGITS
    ensures FormatAbhaId(v) == Grouped(v)
  {
    DigitsOfDigits(v);
  }

  lemma GroupedExample()
    ensures Grouped("12345678901234") == "12-3456-7890-1234"
  {
    var d := "12345678901234";
    assert d[..2] == "12" && d[2..6] == "3456" && d[6..10] == "7890" && d[10..14] == "1234" && d[14..] == "";
    assert "12" + "-" + "3456" + "-" + "7890" + "-" + "1234" + "" == "12-3456-7890-1234";
  }

  lemma FormatCleanExample()
    ensures FormatAbhaId("12345678901234") == "12-3456-7890-1234"
  {
    var v := "12345678901234";
    FormatAllDigits(v);
    assert FormatAbhaId(v) == Grouped(v);
    GroupedExample();
  }

  /** A non-digit anywhere in the input, such as a dash typed by the user, is ignored: so
      "12-345678901234" formats like "12345678901234". */
  lemma FormatIgnoresNonDigit(a: string, c: char, b: string)
    requires !IsDigit(c)
    ensures FormatAbhaId(a + [c] + b) == FormatAbhaId(a + b)
  {
    DigitsAroundNonDigit(a, c, b);
    FormatSameDigits(a + [c] + b, a + b);
  }

  lemma DigitsAroundNonDigit(a: string, c: char, b: string)
    requires !IsDigit(c)
    ensures Digits(a + [c] + b) == Digits(a + b)
  {
    DigitsAppend(a + [c], b);
    DigitsAppend(a, [c]);
    DigitsAppend(a, b);
    assert Digits([c]) == [];
  }

  lemma FormatSameDigits(x: string, y: string)
    requires Digits(x) == Digits(y)
    ensures FormatAbhaId(x) == FormatAbhaId(y)
  {
  }
}
