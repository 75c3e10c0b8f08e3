/** The text-to-number step applied to the WITHDRAWAL AMT, DEPOSIT AMT and
    BALANCE AMT cells of the ledger: separators are deleted, an empty
    remainder means "no value", and anything else must be a decimal number
    or the whole load fails. */
module Amounts {
  import opened Wrappers

  /** Characters matched by `\s` in a Python text pattern: the ASCII
      whitespace controls, the information separators 0x1C-0x1F, space, and
      the Unicode space characters. */
  predicate IsSpace(c: char) {
    || ('\t' <= c <= '\r')
    || ('\U{1C}' <= c <= '\U{1F}')
    || c == ' '
    || c == '\U{85}'
    || c == '\U{A0}'
    || c == '\U{1680}'
    || ('\U{2000}' <= c <= '\U{200A}')
    || c == '\U{2028}'
    || c == '\U{2029}'
    || c == '\U{202F}'
    || c == '\U{205F}'
    || c == '\U{3000}'
  }

  /** Characters deleted from an amount cell (the class `[\s,]`). */
  predicate IsSeparator(c: char) {
    IsSpace(c) || c == ','
  }

  /** The cell text with every separator deleted. */
  function Strip(s: string): (r: string)
    ensures |r| <= |s|
    ensures forall i :: 0 <= i < |r| ==> !IsSeparator(r[i])
  {
    if |s| == 0 then ""
    else if IsSeparator(s[0]) then Strip(s[1..])
    else [s[0]] + Strip(s[1..])
  }

  lemma {:induction false} StripAppend(a: string, b: string)
    ensures Strip(a + b) == Strip(a) + Strip(b)
    decreases |a|
  {
    if |a| > 0 {
      assert (a + b)[1..] == a[1..] + b;
      StripAppend(a[1..], b);
    } else {
      assert a + b == b;
    }
  }

  /** Text that holds no separator is left as it is. */
  lemma {:induction false} StripKeepsPlainText(s: string)
    requires forall i :: 0 <= i < |s| ==> !IsSeparator(s[i])
    ensures Strip(s) == s
    decreases |s|
  {
    if |s| > 0 {
      StripKeepsPlainText(s[1..]);
    }
  }

  predicate IsDigit(c: char) {
    '0' <= c <= '9'
  }

  predicate AllDigits(s: string) {
    forall i :: 0 <= i < |s| ==> IsDigit(s[i])
  }

  function DigitValue(c: char): nat
    requires IsDigit(c)
  {
    c as int - '0' as int
  }

  function DigitChar(d: nat): (c: char)
    requires d < 10
    ensures IsDigit(c) && DigitValue(c) == d
  {
    ('0' as int + d) as char
  }

  function Pow10(k: nat): (p: nat)
    ensures p >= 1
  {
    if k == 0 then 1 else 10 * Pow10(k - 1)
  }

  /** The number a string of decimal digits denotes. */
  function DigitsValue(s: string): nat
    requires AllDigits(s)
  {
    if |s| == 0 then 0 else 10 * DigitsValue(s[..|s| - 1]) + DigitValue(s[|s| - 1])
  }

  /** `x` with the decimal point moved `k` places to the left. */
  function ShiftRight(x: real, k: nat): (r: real)
    ensures x >= 0.0 ==> r >= 0.0
  {
    if k == 0 then x else ShiftRight(x, k - 1) / 10.0
  }

  /** The number with integer part `whole` and `k` decimal digits `fraction`. */
  function Decimal(whole: nat, fraction: nat, k: nat): (v: real)
    ensures v >= 0.0
  {
    whole as real + ShiftRight(fraction as real, k)
  }

  /** Index of the first '.', or the length when there is none. */
  function DotIndex(s: string): (k: nat)
    ensures k <= |s|
    ensures k < |s| ==> s[k] == '.'
    ensures forall i :: 0 <= i < k ==> s[i] != '.'
  {
    if |s| == 0 || s[0] == '.' then 0 else 1 + DotIndex(s[1..])
  }

  /** The value of the digits before and after the point, when both are
      digit strings and at least one is non-empty. */
  function ParseParts(whole: string, fraction: string): (r: Option<real>)
    ensures r.Some? ==> r.value >= 0.0
  {
    if (|whole| > 0 || |fraction| > 0) && AllDigits(whole) && AllDigits(fraction) then
      Some(Decimal(DigitsValue(whole), DigitsValue(fraction), |fraction|))
    else
      None
  }

  /** An unsigned decimal: digits, optionally a point and more digits, with
      at least one digit overall ("12", "12.", ".5", "12.50"). */
  function ParseUnsigned(s: string): (r: Option<real>)
    ensures r.Some? ==> r.value >= 0.0
  {
    var k := DotIndex(s);
    ParseParts(s[..k], if k < |s| then s[k + 1..] else "")
  }

  /** Python `float()` on separator-free text, restricted to plain decimal
      notation: an optional sign followed by an unsigned decimal. */
  function ParseDecimal(s: string): (r: Option<real>)
    ensures r.Some? && r.value < 0.0 ==> |s| > 0 && s[0] == '-'
  {
    if |s| > 0 && (s[0] == '-' || s[0] == '+') then
      match ParseUnsigned(s[1..])
      case None => None
      case Some(v) => Some(if s[0] == '-' then -v else v)
    else
      ParseUnsigned(s)
  }

  /** One amount cell: `None` when the cell is missing or holds only
      separators, the number otherwise, and a failure carrying the stripped
      text when that text is not a number. */
  function ParseAmount(cell: Option<string>): (r: Result<Option<real>, string>)
    ensures r.Success? && r.value.None? <==> Strip(cell.GetOr("")) == ""
    ensures r.Failure? <==> Strip(cell.GetOr("")) != "" && ParseDecimal(Strip(cell.GetOr(""))).None?
    ensures r.Failure? ==> r.error == Strip(cell.GetOr(""))
  {
    var text := Strip(cell.GetOr(""));
    if text == "" then Success(None)
    else
      match ParseDecimal(text)
      case Some(v) => Success(Some(v))
      case None => Failure(text)
  }

  /** A separator anywhere in a cell does not change how it parses. */
  lemma SeparatorIgnored(a: string, c: char, b: string)
    requires IsSeparator(c)
    ensures ParseAmount(Some(a + [c] + b)) == ParseAmount(Some(a + b))
  {
    StripAppend(a + [c], b);
    StripAppend(a, [c]);
    StripAppend(a, b);
    assert Strip([c]) == "";
    assert Strip(a + [c] + b) == Strip(a + b);
  }

  // ---------------------------------------------------------------------
  // Fixed-point text, the inverse direction: how an amount with `k`
  // decimals is written, so that parsing can be checked against it.

  /** Decimal digits of `n`, without leading zeros. */
  function Digits(n: nat): (s: string)
    ensures |s| > 0 && AllDigits(s) && DigitsValue(s) == n
    decreases n
  {
    if n < 10 then
      var s := [DigitChar(n)];
      assert s[..0] == "";
      s
    else
      var init := Digits(n / 10);
      var s := init + [DigitChar(n % 10)];
      assert s[..|s| - 1] == init;
      s
  }

  /** Exactly `k` decimal digits of `f`, zero-padded on the left. */
  function FixedDigits(f: nat, k: nat): (s: string)
    requires f < Pow10(k)
    ensures |s| == k && AllDigits(s) && DigitsValue(s) == f
  {
    if k == 0 then ""
    else
      assert f / 10 < Pow10(k - 1);
      var init := FixedDigits(f / 10, k - 1);
      var s := init + [DigitChar(f % 10)];
      assert s[..|s| - 1] == init;
      s
  }

  /** Decimal text from its digit strings: the integer digits, then, when
      there are any, a point and the fraction digits. */
  function UnsignedText(whole: string, fraction: string): string {
    whole + (if |fraction| == 0 then "" else "." + fraction)
  }

  /** Decimal text with a leading minus when `negative`. */
  function SignedText(negative: bool, whole: string, fraction: string): string {
    if negative then "-" + UnsignedText(whole, fraction) else UnsignedText(whole, fraction)
  }

  /** The value of the parts of a decimal text. */
  function TextValue(negative: bool, whole: string, fraction: string): real
    requires AllDigits(whole) && AllDigits(fraction)
  {
    var v := Decimal(DigitsValue(whole), DigitsValue(fraction), |fraction|);
    if negative then -v else v
  }

  /** The first point of `whole + tail` is where `tail` begins. */
  lemma {:induction false} DotIndexAfter(whole: string, tail: string)
    requires forall i :: 0 <= i < |whole| ==> whole[i] != '.'
    requires tail == "" || tail[0] == '.'
    ensures DotIndex(whole + tail) == |whole|
    decreases |whole|
  {
    if |whole| > 0 {
      assert (whole + tail)[1..] == whole[1..] + tail;
      DotIndexAfter(whole[1..], tail);
    } else {
      assert whole + tail == tail;
    }
  }

  /** Unsigned decimal text parses to the value of its digits. */
  lemma UnsignedRoundTrip(whole: string, fraction: string)
    requires |whole| > 0 && AllDigits(whole) && AllDigits(fraction)
    ensures ParseUnsigned(UnsignedText(whole, fraction)) == Some(TextValue(false, whole, fraction))
    ensures IsDigit(UnsignedText(whole, fraction)[0])
  {
    var tail := if |fraction| == 0 then "" else "." + fraction;
    var s := whole + tail;
    DotIndexAfter(whole, tail);
    assert s[..|whole|] == whole;
    if |fraction| > 0 {
      assert s[|whole| + 1..] == fraction;
    }
    assert ParseUnsigned(s) == ParseParts(whole, fraction);
    assert s[0] == whole[0];
  }

  /** A leading minus negates what the rest of the text parses to, and text
      that starts with a digit parses as it is. */
  lemma SignRoundTrip(negative: bool, body: string, v: real)
    requires ParseUnsigned(body) == Some(v)
    requires |body| > 0 && IsDigit(body[0])
    ensures ParseDecimal(if negative then "-" + body else body) == Some(if negative then -v else v)
  {
    if negative {
      var t := "-" + body;
      assert t[0] == '-' && t[1..] == body;
      assert ParseDecimal(t) == Some(-v);
    } else {
      assert !(body[0] == '-' || body[0] == '+');
      assert ParseDecimal(body) == ParseUnsigned(body);
    }
  }

  /** Parsing decimal text gives back the value of its parts, negative
      values included. */
  lemma TextRoundTrip(negative: bool, whole: string, fraction: string)
    requires |whole| > 0 && AllDigits(whole) && AllDigits(fraction)
    ensures ParseDecimal(SignedText(negative, whole, fraction)) == Some(TextValue(negative, whole, fraction))
  {
    var body, v := UnsignedText(whole, fraction), TextValue(false, whole, fraction);
    UnsignedRoundTrip(whole, fraction);
    SignRoundTrip(negative, body, v);
    assert SignedText(negative, whole, fraction) == (if negative then "-" + body else body);
    assert TextValue(negative, whole, fraction) == (if negative then -v else v);
  }

  /** An amount with `k` decimals written out: "-1234.50" is
      `FormatFixed(true, 1234, 50, 2)`. */
  function FormatFixed(negative: bool, whole: nat, fraction: nat, k: nat): string
    requires fraction < Pow10(k)
  {
    SignedText(negative, Digits(whole), FixedDigits(fraction, k))
  }

  /** The value `FormatFixed` writes out. */
  function FixedValue(negative: bool, whole: nat, fraction: nat, k: nat): real {
    if negative then -Decimal(whole, fraction, k) else Decimal(whole, fraction, k)
  }

  /** Parsing the text of an amount gives back the amount. */
  lemma FixedRoundTrip(negative: bool, whole: nat, fraction: nat, k: nat)
    requires fraction < Pow10(k)
    ensures ParseDecimal(FormatFixed(negative, whole, fraction, k)) == Some(FixedValue(negative, whole, fraction, k))
  {
    var w, f := Digits(whole), FixedDigits(fraction, k);
    TextRoundTrip(negative, w, f);
    assert TextValue(negative, w, f) == FixedValue(negative, whole, fraction, k);
  }

  /** Decimal text holds no separator. */
  lemma SignedTextPlain(negative: bool, whole: string, fraction: string)
    requires AllDigits(whole) && AllDigits(fraction)
    ensures forall i :: 0 <= i < |SignedText(negative, whole, fraction)| ==>
      !IsSeparator(SignedText(negative, whole, fraction)[i])
  {
    var body := UnsignedText(whole, fraction);
    assert forall i :: 0 <= i < |body| ==> IsDigit(body[i]) || body[i] == '.';
    var s := SignedText(negative, whole, fraction);
    assert forall i :: 0 <= i < |s| ==> IsDigit(s[i]) || s[i] == '.' || s[i] == '-';
  }

  /** A cell holding the text of an amount parses to that amount. */
  lemma AmountRoundTrip(negative: bool, whole: nat, fraction: nat, k: nat)
    requires fraction < Pow10(k)
    ensures ParseAmount(Some(FormatFixed(negative, whole, fraction, k)))
      == Success(Some(FixedValue(negative, whole, fraction, k)))
  {
    FixedRoundTrip(negative, whole, fraction, k);
    SignedTextPlain(negative, Digits(whole), FixedDigits(fraction, k));
    StripKeepsPlainText(FormatFixed(negative, whole, fraction, k));
  }

  lemma WrittenExample()
    ensures FormatFixed(false, 1234, 50, 2) == "1234.50"
  {
    assert Digits(1) == "1";
    assert Digits(12) == "12";
    assert Digits(123) == "123";
    assert Digits(1234) == "1234";
    assert FixedDigits(0, 0) == "";
    assert FixedDigits(5, 1) == "5";
    assert FixedDigits(50, 2) == "50";
  }

  lemma GroupedTailStrips()
    ensures Strip(".50 ") == ".50"
  {
    assert Strip(" ") == "";
    assert Strip("0 ") == "0";
    assert Strip("50 ") == "50";
  }

  lemma GroupedMiddleStrips()
    ensures Strip("234.50 ") == "234.50"
  {
    GroupedTailStrips();
    assert Strip("4.50 ") == "4.50";
    assert Strip("34.50 ") == "34.50";
  }

  lemma GroupedHeadStrips()
    ensures Strip("1,234.50 ") == "1234.50"
  {
    GroupedMiddleStrips();
    assert Strip(",234.50 ") == "234.50";
  }

  lemma GroupedTextStrips()
    ensures Strip(" 1,234.50 ") == "1234.50"
  {
    GroupedHeadStrips();
  }

  lemma GroupedValue()
    ensures FixedValue(false, 1234, 50, 2) == 1234.5
  {
    assert ShiftRight(50.0, 1) == 5.0;
  }

  /** Thousands separators and stray spaces: " 1,234.50 " is 1234.5. */
  lemma GroupedAmountExample()
    ensures ParseAmount(Some(" 1,234.50 ")) == Success(Some(1234.5))
  {
    GroupedTextStrips();
    WrittenExample();
    GroupedValue();
    AmountRoundTrip(false, 1234, 50, 2);
  }

  /** Text the parser accepts uses only digits and points, plus a sign in
      front. */
  lemma UnsignedAlphabet(s: string)
    requires ParseUnsigned(s).Some?
    ensures forall i :: 0 <= i < |s| ==> IsDigit(s[i]) || s[i] == '.'
  {
    var k := DotIndex(s);
    var whole := s[..k];
    var fraction := if k < |s| then s[k + 1..] else "";
    assert AllDigits(whole) && AllDigits(fraction);
    forall i | 0 <= i < |s|
      ensures IsDigit(s[i]) || s[i] == '.'
    {
      if i < k {
        assert s[i] == whole[i];
      } else if i > k {
        assert s[i] == fraction[i - k - 1];
      }
    }
  }

  lemma ParsedAlphabet(s: string)
    requires ParseDecimal(s).Some?
    ensures forall i :: 0 <= i < |s| ==>
      IsDigit(s[i]) || s[i] == '.' || (i == 0 && (s[i] == '-' || s[i] == '+'))
  {
    if |s| > 0 && (s[0] == '-' || s[0] == '+') {
      UnsignedAlphabet(s[1..]);
      assert forall i :: 1 <= i < |s| ==> s[i] == s[1..][i - 1];
    } else {
      UnsignedAlphabet(s);
    }
  }

  /** Plain decimal notation, described without reference to the parser:
      only digits and points, at most one point, and at least one digit. */
  predicate IsUnsignedText(s: string) {
    && (forall i :: 0 <= i < |s| ==> IsDigit(s[i]) || s[i] == '.')
    && (forall i, j :: 0 <= i < j < |s| ==> !(s[i] == '.' && s[j] == '.'))
    && (exists i :: 0 <= i < |s| && IsDigit(s[i]))
  }

  /** Plain decimal notation with an optional sign in front. */
  predicate IsDecimalText(s: string) {
    if |s| > 0 && (s[0] == '-' || s[0] == '+') then IsUnsignedText(s[1..]) else IsUnsignedText(s)
  }

  /** The unsigned parser accepts exactly plain decimal notation. */
  lemma UnsignedAccepts(s: string)
    ensures ParseUnsigned(s).Some? <==> IsUnsignedText(s)
  {
    var k := DotIndex(s);
    var whole := s[..k];
    var fraction := if k < |s| then s[k + 1..] else "";
    assert ParseUnsigned(s) == ParseParts(whole, fraction);
    if ParseUnsigned(s).Some? {
      UnsignedAlphabet(s);
      assert forall i :: 0 <= i < |s| && s[i] == '.' ==> i == k;
      if |whole| > 0 {
        assert s[0] == whole[0];
      } else {
        assert s[k + 1] == fraction[0];
      }
    }
    if IsUnsignedText(s) {
      assert forall i :: 0 <= i < |whole| ==> whole[i] == s[i];
      if k < |s| {
        forall i | 0 <= i < |fraction|
          ensures IsDigit(fraction[i])
        {
          assert fraction[i] == s[k + 1 + i];
        }
      }
      var d :| 0 <= d < |s| && IsDigit(s[d]);
      if d > k {
        assert fraction[d - k - 1] == s[d];
      }
    }
  }

  /** `float()` on separator-free text accepts exactly an optional sign
      followed by plain decimal notation: "+5", ".5" and "12." are
      numbers, while "1.2.3", "-", "." and "" are not. */
  lemma DecimalAccepts(s: string)
    ensures ParseDecimal(s).Some? <==> IsDecimalText(s)
  {
    if |s| > 0 && (s[0] == '-' || s[0] == '+') {
      UnsignedAccepts(s[1..]);
    } else {
      UnsignedAccepts(s);
    }
  }

  /** Appending digits shifts the value of the earlier ones up by a power of ten. */
  lemma {:induction false} DigitsAppend(a: string, b: string)
    requires AllDigits(a) && AllDigits(b)
    ensures AllDigits(a + b)
    ensures DigitsValue(a + b) == DigitsValue(a) * Pow10(|b|) + DigitsValue(b)
    decreases |b|
  {
    var c := a + b;
    assert forall i :: 0 <= i < |c| ==> c[i] == if i < |a| then a[i] else b[i - |a|];
    if |b| == 0 {
      assert c == a;
    } else {
      var init := b[..|b| - 1];
      assert c[..|c| - 1] == a + init;
      DigitsAppend(a, init);
      TimesTen(DigitsValue(a), Pow10(|b| - 1));
    }
  }

  lemma TimesTen(x: nat, p: nat)
    ensures x * (10 * p) == 10 * (x * p)
  {
  }

  /** Moving the point is additive. */
  lemma {:induction false} ShiftRightAdd(x: real, y: real, k: nat)
    ensures ShiftRight(x + y, k) == ShiftRight(x, k) + ShiftRight(y, k)
    decreases k
  {
    if k > 0 {
      ShiftRightAdd(x, y, k - 1);
    }
  }

  /** Moving the point of `n` followed by `k` zeros back `k` places gives `n`. */
  lemma {:induction false} ShiftRightPow10(n: nat, k: nat)
    ensures ShiftRight((n * Pow10(k)) as real, k) == n as real
    decreases k
  {
    if k > 0 {
      assert n * Pow10(k) == (10 * n) * Pow10(k - 1);
      ShiftRightPow10(10 * n, k - 1);
    }
  }

  /** The parts of text with a point are the digits on either side of it. */
  lemma PointParts(whole: string, fraction: string)
    requires AllDigits(whole) && AllDigits(fraction) && |whole| + |fraction| > 0
    ensures ParseUnsigned(whole + "." + fraction)
      == Some(Decimal(DigitsValue(whole), DigitsValue(fraction), |fraction|))
  {
    var tail := "." + fraction;
    var s := whole + tail;
    assert whole + "." + fraction == s;
    DotIndexAfter(whole, tail);
    assert s[..|whole|] == whole && s[|whole| + 1..] == fraction;
    assert ParseUnsigned(s) == ParseParts(whole, fraction);
  }

  /** A number with integer digits `whole` and fraction digits `fraction` is
      all of its digits read as one number, with the point then moved left
      past the fraction digits. */
  lemma DecimalShift(whole: string, fraction: string)
    requires AllDigits(whole) && AllDigits(fraction)
    ensures AllDigits(whole + fraction)
    ensures Decimal(DigitsValue(whole), DigitsValue(fraction), |fraction|)
      == ShiftRight(DigitsValue(whole + fraction) as real, |fraction|)
  {
    DigitsAppend(whole, fraction);
    var w, f, k := DigitsValue(whole), DigitsValue(fraction), |fraction|;
    ShiftRightAdd((w * Pow10(k)) as real, f as real, k);
    ShiftRightPow10(w, k);
  }

  /** Text with a point denotes its digits read as one whole number, with
      the point then moved left past the fraction digits: "12.5" is 125
      shifted one place, ".5" is 5 shifted one place, "12." is 12. */
  lemma PointValue(whole: string, fraction: string)
    requires AllDigits(whole) && AllDigits(fraction) && |whole| + |fraction| > 0
    ensures AllDigits(whole + fraction)
    ensures ParseUnsigned(whole + "." + fraction)
      == Some(ShiftRight(DigitsValue(whole + fraction) as real, |fraction|))
  {
    PointParts(whole, fraction);
    DecimalShift(whole, fraction);
  }

  /** Text without a point denotes its digits read as a whole number. */
  lemma WholeValue(digits: string)
    requires |digits| > 0 && AllDigits(digits)
    ensures ParseUnsigned(digits) == Some(DigitsValue(digits) as real)
  {
    UnsignedRoundTrip(digits, "");
    assert UnsignedText(digits, "") == digits;
    assert TextValue(false, digits, "") == DigitsValue(digits) as real;
  }

  /** A leading plus is ignored and a leading minus negates. */
  lemma SignValue(body: string)
    ensures ParseDecimal("+" + body) == ParseUnsigned(body)
    ensures ParseDecimal("-" + body).Some? <==> ParseUnsigned(body).Some?
    ensures ParseUnsigned(body).Some? ==> ParseDecimal("-" + body).value == -ParseUnsigned(body).value
  {
    assert ("+" + body)[1..] == body;
    assert ("-" + body)[1..] == body;
  }

  lemma PlusSignExample()
    ensures ParseDecimal("+5") == Some(5.0)
  {
    WholeValue("5");
    SignValue("5");
  }

  lemma LeadingPointExample()
    ensures ParseDecimal(".5") == Some(0.5)
  {
    PointValue("", "5");
    assert "" + "." + "5" == ".5";
    assert "" + "5" == "5";
  }

  lemma TrailingPointExample()
    ensures ParseDecimal("12.") == Some(12.0)
  {
    PointValue("12", "");
    assert "12" + "." + "" == "12.";
    assert "12" + "" == "12";
    assert DigitsValue("12") == 12 by {
      assert "12"[..1] == "1";
    }
  }

  lemma RejectedForms()
    ensures ParseDecimal("1.2.3").None?
    ensures ParseDecimal("-").None?
    ensures ParseDecimal(".").None?
    ensures ParseDecimal("").None?
  {
    DecimalAccepts("1.2.3");
    assert "1.2.3"[1] == '.' && "1.2.3"[3] == '.';
    DecimalAccepts("-");
    assert "-"[1..] == "";
    DecimalAccepts(".");
    DecimalAccepts("");
  }

  /** A cell that is not a number after stripping is an error, not zero. */
  lemma NotANumber()
    ensures ParseDecimal("12x3").None?
  {
    if ParseDecimal("12x3").Some? {
      ParsedAlphabet("12x3");
    }
  }

  lemma MalformedTextStrips()
    ensures Strip("1,2x3") == "12x3"
  {
    assert Strip("3") == "3";
    assert Strip("x3") == "x3";
    assert Strip("2x3") == "2x3";
    assert Strip(",2x3") == "2x3";
  }

  lemma MalformedAmountExample()
    ensures ParseAmount(Some("1,2x3")) == Failure("12x3")
  {
    MalformedTextStrips();
    NotANumber();
  }
}
