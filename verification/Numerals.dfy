/** The reference reading of decimal numerals, by their grammar, and that the readers accept exactly these. */
module Numerals {
  import opened Arithmetic
  import opened Outcomes
  import opened Texts
  import opened DecimalArithmetic
  import opened NumberText

  datatype Sign = NoSign | Plus | Minus

  datatype Exponent = Exponent(letter: char, sign: Sign, digits: string)

  /** Sign, digits, perhaps a point or a comma and more digits, perhaps an exponent. */
  datatype Numeral = Numeral(sign: Sign, whole: string, mark: Option<char>, fraction: string,
                             exponent: Option<Exponent>)

  predicate IsExponent(e: Exponent) {
    (e.letter == 'e' || e.letter == 'E') && e.digits != "" && AllDigits(e.digits)
  }

  predicate IsNumeral(n: Numeral) {
    && AllDigits(n.whole) && AllDigits(n.fraction) && n.whole + n.fraction != ""
    && (n.mark.None? ==> n.fraction == "")
    && (n.mark.Some? ==> n.mark.value == '.' || n.mark.value == ',')
    && (n.exponent.Some? ==> IsExponent(n.exponent.value))
  }

  function SignText(s: Sign): string {
    match s
    case NoSign => ""
    case Plus => "+"
    case Minus => "-"
  }

  function Signed(s: Sign, n: int): int {
    if s == Minus then -n else n
  }

  function MarkText(mark: Option<char>): string {
    if mark.Some? then [mark.value] else ""
  }

  function ExponentText(e: Option<Exponent>): string {
    if e.Some? then [e.value.letter] + SignText(e.value.sign) + e.value.digits else ""
  }

  function Written(n: Numeral): string {
    SignText(n.sign) + (n.whole + MarkText(n.mark) + n.fraction + ExponentText(n.exponent))
  }

  /** The signed number that all the digits denote, scaled by the number of decimals and the exponent. */
  function Denoted(n: Numeral): Decimal
    requires IsNumeral(n)
  {
    var power := if n.exponent.Some? then Signed(n.exponent.value.sign, NumberOf(n.exponent.value.digits)) else 0;
    Decimal(Signed(n.sign, NumberOf(n.whole + n.fraction)), power - |n.fraction|)
  }

  predicate IsBlankText(s: string) {
    forall c :: c in s ==> IsSpace(c)
  }

  /** The text is white space around a numeral of this value. */
  ghost predicate Denotes(text: string, a: Decimal) {
    exists left, n, right :: IsWrittenAs(text, left, n, right) && a == Denoted(n)
  }

  predicate IsWrittenAs(text: string, left: string, n: Numeral, right: string) {
    IsNumeral(n) && IsBlankText(left) && IsBlankText(right) && text == left + Written(n) + right
  }

  // Every numeral is read.

  /** The numeral with a point for its mark. */
  function Pointed(n: Numeral): Numeral {
    n.(mark := if n.mark.Some? then Some('.') else None)
  }

  lemma CommaAppend(a: string, b: string)
    ensures CommaToPoint(a + b) == CommaToPoint(a) + CommaToPoint(b)
  {
  }

  lemma DigitsHaveNoComma(s: string)
    requires AllDigits(s)
    ensures CommaToPoint(s) == s
  {
    assert forall i :: 0 <= i < |s| ==> s[i] in s;
  }

  lemma BlanksHaveNoComma(s: string)
    requires IsBlankText(s)
    ensures CommaToPoint(s) == s
  {
    assert forall i :: 0 <= i < |s| ==> s[i] in s;
  }

  lemma SignAndMark(n: Numeral)
    requires IsNumeral(n)
    ensures CommaToPoint(SignText(n.sign)) == SignText(n.sign)
    ensures CommaToPoint(MarkText(n.mark)) == MarkText(Pointed(n).mark)
    ensures CommaToPoint(ExponentText(n.exponent)) == ExponentText(n.exponent)
  {
    if n.exponent.Some? {
      var e := n.exponent.value;
      DigitsHaveNoComma(e.digits);
      CommaAppend([e.letter], SignText(e.sign));
      CommaAppend([e.letter] + SignText(e.sign), e.digits);
    }
  }

  lemma PointReplacesComma(left: string, n: Numeral, right: string)
    requires IsNumeral(n) && IsBlankText(left) && IsBlankText(right)
    ensures CommaToPoint(left + Written(n) + right) == left + Written(Pointed(n)) + right
  {
    DigitsHaveNoComma(n.whole);
    DigitsHaveNoComma(n.fraction);
    BlanksHaveNoComma(left);
    BlanksHaveNoComma(right);
    SignAndMark(n);
    hide CommaToPoint, IsNumeral, IsBlankText, SignText, MarkText, ExponentText;
    CommaAppend(left + Written(n), right);
    CommaAppend(left, Written(n));
    CommaAppend(SignText(n.sign), n.whole + MarkText(n.mark) + n.fraction + ExponentText(n.exponent));
    CommaAppend(n.whole + MarkText(n.mark) + n.fraction, ExponentText(n.exponent));
    CommaAppend(n.whole + MarkText(n.mark), n.fraction);
    CommaAppend(n.whole, MarkText(n.mark));
  }

  lemma IntegerIsRead(sign: Sign, digits: string)
    requires digits != "" && AllDigits(digits)
    ensures Integer(SignText(sign) + digits) == Some(Signed(sign, NumberOf(digits)))
  {
    hide NumberOf;
    var s := SignText(sign) + digits;
    assert digits[0] in digits && IsDigit(digits[0]);
    if sign == NoSign {
      assert s == digits && UnsignedPart(s) == digits && !HasMinus(s);
    } else {
      assert s[1..] == digits && UnsignedPart(s) == digits;
      assert HasMinus(s) <==> sign == Minus;
    }
  }

  /** The digits and the point of a numeral. */
  function Plain(whole: string, marked: bool, fraction: string): string {
    whole + (if marked then "." else "") + fraction
  }

  lemma MantissaIsRead(whole: string, marked: bool, fraction: string)
    requires AllDigits(whole) && AllDigits(fraction) && whole + fraction != "" && (marked || fraction == "")
    ensures AllDigits(whole + fraction)
    ensures Mantissa(Plain(whole, marked, fraction)) == Some((NumberOf(whole + fraction), |fraction|))
  {
    var s := Plain(whole, marked, fraction);
    assert forall k :: 0 <= k < |whole| ==> s[k] == whole[k] && whole[k] in whole;
    if marked {
      IndexOfIs(s, '.', 0, |whole|);
      assert s[..|whole|] == whole && s[|whole| + 1..] == fraction;
    } else {
      assert s == whole && IndexOf(s, '.', 0) == |s| && s[..|s|] == s;
      assert whole + fraction == whole;
    }
  }

  lemma NoLetters(whole: string, marked: bool, fraction: string)
    requires AllDigits(whole) && AllDigits(fraction)
    ensures forall k :: 0 <= k < |Plain(whole, marked, fraction)| ==>
      var c := Plain(whole, marked, fraction)[k]; IsDigit(c) || c == '.'
  {
    var s := Plain(whole, marked, fraction);
    forall k | 0 <= k < |s|
      ensures IsDigit(s[k]) || s[k] == '.'
    {
      assert s[k] in whole || s[k] in fraction || s[k] == '.';
    }
  }

  lemma ExponentMarkIs(m: string, e: Option<Exponent>)
    requires forall k :: 0 <= k < |m| ==> IsDigit(m[k]) || m[k] == '.'
    requires e.Some? ==> IsExponent(e.value)
    ensures ExponentMark(m + ExponentText(e)) == |m|
  {
    var s := m + ExponentText(e);
    if e.Some? {
      var other := if e.value.letter == 'e' then 'E' else 'e';
      IndexOfIs(s, e.value.letter, 0, |m|);
      assert forall k :: 0 <= k < |m| ==> s[k] == m[k];
      assert s[|m|] == e.value.letter;
    } else {
      assert s == m;
    }
  }

  lemma BodyIsRead(n: Numeral, body: string)
    requires IsNumeral(n) && body == Plain(n.whole, n.mark.Some?, n.fraction) + ExponentText(n.exponent)
    ensures var e := ExponentMark(body);
      && Mantissa(body[..e]) == Some((NumberOf(n.whole + n.fraction), |n.fraction|))
      && (if e < |body| then Integer(body[e + 1..]) else Some(0))
         == Some(if n.exponent.Some? then Signed(n.exponent.value.sign, NumberOf(n.exponent.value.digits)) else 0)
  {
    hide Mantissa, Integer, ExponentMark;
    var m := Plain(n.whole, n.mark.Some?, n.fraction);
    NoLetters(n.whole, n.mark.Some?, n.fraction);
    ExponentMarkIs(m, n.exponent);
    MantissaIsRead(n.whole, n.mark.Some?, n.fraction);
    assert body[..|m|] == m;
    if n.exponent.Some? {
      var e := n.exponent.value;
      assert body[|m| + 1..] == SignText(e.sign) + e.digits;
      IntegerIsRead(e.sign, e.digits);
    } else {
      assert |body| == |m|;
    }
  }

  lemma WrittenIsStripped(left: string, n: Numeral, right: string)
    requires IsNumeral(n) && IsBlankText(left) && IsBlankText(right)
    ensures Written(n) != "" && Strip(left + Written(n) + right) == Written(n)
  {
    var s := Written(n);
    var m := n.whole + MarkText(n.mark) + n.fraction;
    forall c | c in m
      ensures !IsSpace(c)
    {
      assert c in n.whole || c in n.fraction || c in MarkText(n.mark);
    }
    forall c | c in s
      ensures !IsSpace(c)
    {
      assert c in SignText(n.sign) || c in m || c in ExponentText(n.exponent);
    }
    assert |m| >= |n.whole + n.fraction| > 0;
    assert s[0] in s && s[|s| - 1] in s;
    StripPadding(left, s, right);
  }

  /** Every numeral, with any white space around it, is read as the number it denotes. */
  lemma NumeralsAreRead(left: string, n: Numeral, right: string)
    requires IsNumeral(n) && IsBlankText(left) && IsBlankText(right)
    ensures ParseAmount(left + Written(n) + right) == Some(Denoted(n))
  {
    hide Strip, Mantissa, Integer, ExponentMark, CommaToPoint;
    var p := Pointed(n);
    PointReplacesComma(left, n, right);
    WrittenIsStripped(left, p, right);
    var s := Written(p);
    var body := p.whole + MarkText(p.mark) + p.fraction + ExponentText(p.exponent);
    assert body == Plain(n.whole, n.mark.Some?, n.fraction) + ExponentText(n.exponent);
    SignIsRead(n, s, body);
    BodyIsRead(n, body);
  }

  lemma SignIsRead(n: Numeral, s: string, body: string)
    requires IsNumeral(n) && body == Plain(n.whole, n.mark.Some?, n.fraction) + ExponentText(n.exponent)
    requires s == SignText(n.sign) + body
    ensures UnsignedPart(s) == body && (HasMinus(s) <==> n.sign == Minus)
  {
    var m := Plain(n.whole, n.mark.Some?, n.fraction);
    NoLetters(n.whole, n.mark.Some?, n.fraction);
    assert |m| > 0 && body[0] == m[0];
    assert n.sign != NoSign ==> s[1..] == body;
  }

  // Nothing else is read.

  lemma {:induction false} StripLeftSplits(s: string) returns (left: string)
    ensures s == left + StripLeft(s) && IsBlankText(left)
  {
    if s != "" && IsSpace(s[0]) {
      var rest := StripLeftSplits(s[1..]);
      left := [s[0]] + rest;
    } else {
      left := "";
    }
  }

  lemma {:induction false} StripRightSplits(s: string) returns (right: string)
    ensures s == StripRight(s) + right && IsBlankText(right)
  {
    if s != "" && IsSpace(s[|s| - 1]) {
      var rest := StripRightSplits(s[..|s| - 1]);
      right := rest + [s[|s| - 1]];
    } else {
      right := "";
    }
  }

  /** Stripping takes off white space and nothing else. */
  lemma StripSplits(s: string) returns (left: string, right: string)
    ensures s == left + Strip(s) + right && IsBlankText(left) && IsBlankText(right)
  {
    left := StripLeftSplits(s);
    right := StripRightSplits(StripLeft(s));
  }

  lemma SignSplits(s: string) returns (sign: Sign)
    ensures s == SignText(sign) + UnsignedPart(s) && (HasMinus(s) <==> sign == Minus)
  {
    sign := if s == "" then NoSign else if s[0] == '-' then Minus else if s[0] == '+' then Plus else NoSign;
    assert sign != NoSign ==> s == [s[0]] + s[1..];
  }

  lemma IntegerSplits(s: string) returns (sign: Sign)
    requires Integer(s).Some?
    ensures s == SignText(sign) + UnsignedPart(s) && UnsignedPart(s) != "" && AllDigits(UnsignedPart(s))
  {
    sign := SignSplits(s);
  }

  lemma MantissaSplits(s: string) returns (whole: string, marked: bool, fraction: string)
    requires Mantissa(s).Some?
    ensures s == Plain(whole, marked, fraction) && AllDigits(whole) && AllDigits(fraction) && whole + fraction != ""
    ensures !marked ==> fraction == ""
  {
    var p := IndexOf(s, '.', 0);
    whole, marked, fraction := s[..p], p < |s|, if p < |s| then s[p + 1..] else "";
    assert forall c :: c in whole ==> c in whole + fraction;
    assert forall c :: c in fraction ==> c in whole + fraction;
    assert p < |s| ==> s == s[..p] + [s[p]] + s[p + 1..];
  }

  lemma BodySplits(body: string) returns (whole: string, marked: bool, fraction: string, exponent: Option<Exponent>)
    requires var e := ExponentMark(body);
      Mantissa(body[..e]).Some? && (e < |body| ==> Integer(body[e + 1..]).Some?)
    ensures body == Plain(whole, marked, fraction) + ExponentText(exponent)
    ensures AllDigits(whole) && AllDigits(fraction) && whole + fraction != "" && (!marked ==> fraction == "")
    ensures exponent.Some? ==> IsExponent(exponent.value)
  {
    hide Mantissa, Integer, Plain, ExponentMark, AllDigits, UnsignedPart, SignText;
    var e := ExponentMark(body);
    whole, marked, fraction := MantissaSplits(body[..e]);
    if e < |body| {
      var sign := IntegerSplits(body[e + 1..]);
      MarkLetter(body);
      var digits := UnsignedPart(body[e + 1..]);
      exponent := Some(Exponent(body[e], sign, digits));
      assert [body[e]] + SignText(sign) + digits == [body[e]] + body[e + 1..];
      assert body == body[..e] + ([body[e]] + body[e + 1..]);
      assert ExponentText(exponent) == [body[e]] + body[e + 1..];
    } else {
      exponent := None;
      assert body == body[..e];
    }
  }

  /** A text that is read is, up to its mark, white space around a numeral. */
  lemma PointedNumeral(text: string) returns (left: string, n: Numeral, right: string)
    requires ParseDecimal(text).Some?
    ensures IsWrittenAs(text, left, n, right) && Pointed(n) == n
  {
    hide Mantissa, Integer, IsSpace, Strip, UnsignedPart, HasMinus, ExponentMark, ExponentText, IsExponent;
    left, right := StripSplits(text);
    var s := Strip(text);
    var sign := SignSplits(s);
    var whole, marked, fraction, exponent := BodySplits(UnsignedPart(s));
    n := Numeral(sign, whole, if marked then Some('.') else None, fraction, exponent);
    assert Plain(whole, marked, fraction) == whole + MarkText(n.mark) + fraction;
  }

  lemma MarkLetter(body: string)
    requires ExponentMark(body) < |body|
    ensures body[ExponentMark(body)] == 'e' || body[ExponentMark(body)] == 'E'
  {
  }

  /** Putting the comma back. */
  lemma WithComma(text: string, left: string, p: Numeral, right: string) returns (n: Numeral)
    requires IsWrittenAs(CommaToPoint(text), left, p, right) && Pointed(p) == p
    ensures IsWrittenAs(text, left, n, right) && Pointed(n) == p
  {
    var at := |left + SignText(p.sign) + p.whole|;
    var points := CommaToPoint(text);
    n := if p.mark.Some? then p.(mark := Some(text[at])) else p;
    if p.mark.Some? {
      assert points[at] == '.';
    }
    var again := left + Written(n) + right;
    assert |again| == |text|;
    forall k | 0 <= k < |text|
      ensures text[k] == again[k]
    {
      if k == at && p.mark.Some? {
        assert again[k] == text[k];
      } else {
        NotAPoint(left, p, right, k);
        assert again[k] == points[k];
      }
    }
    assert text == again;
  }

  lemma NotAPoint(left: string, p: Numeral, right: string, k: nat)
    requires IsNumeral(p) && IsBlankText(left) && IsBlankText(right) && k < |left + Written(p) + right|
    requires p.mark.Some? ==> k != |left + SignText(p.sign) + p.whole|
    ensures (left + Written(p) + right)[k] != '.'
  {
    var c := (left + Written(p) + right)[k];
    assert c in left || c in SignText(p.sign) || c in p.whole || c in p.fraction || c in ExponentText(p.exponent)
           || c in right;
  }

  /** The readers accept a text exactly when it is white space around a numeral, and read the number it denotes. */
  lemma AmountMeaning(text: string, a: Decimal)
    ensures ParseAmount(text) == Some(a) <==> Denotes(text, a)
  {
    hide ParseDecimal, CommaToPoint, IsNumeral, Denoted, Written, IsSpace;
    if ParseAmount(text) == Some(a) {
      var left, p, right := PointedNumeral(CommaToPoint(text));
      var n := WithComma(text, left, p, right);
      NumeralsAreRead(left, n, right);
      assert IsWrittenAs(text, left, n, right) && a == Denoted(n);
    }
    if Denotes(text, a) {
      var left, n, right :| IsWrittenAs(text, left, n, right) && a == Denoted(n);
      NumeralsAreRead(left, n, right);
    }
  }

  /** A non-negative number of cents written with any number of leading zeros, a point or a comma and two decimal places
      is read back as that number of cents. */
  lemma PrintedCentsParse(cents: nat, width: nat, mark: char)
    requires cents / 100 < Pow10(width) && (mark == '.' || mark == ',')
    ensures ParseAmount(Padded(cents / 100, width) + [mark] + Padded(cents % 100, 2)) == Some(Decimal(cents, -2))
  {
    hide ParseAmount, NumberOf, Padded;
    var whole, fraction := Padded(cents / 100, width), Padded(cents % 100, 2);
    var n := Numeral(NoSign, whole, Some(mark), fraction, None);
    CentsInDigits(cents, width);
    assert IsNumeral(n) && IsBlankText("");
    NumeralsAreRead("", n, "");
    assert Written(n) == whole + [mark] + fraction;
    assert "" + Written(n) + "" == Written(n);
  }

  lemma CentsInDigits(cents: nat, width: nat)
    requires cents / 100 < Pow10(width)
    ensures AllDigits(Padded(cents / 100, width) + Padded(cents % 100, 2))
    ensures NumberOf(Padded(cents / 100, width) + Padded(cents % 100, 2)) == cents
  {
    hide NumberOf, Padded;
    PowersOfTen();
    NumberOfPadded(cents / 100, width);
    NumberOfPadded(cents % 100, 2);
    NumberOfAppend(Padded(cents / 100, width), Padded(cents % 100, 2));
  }
}
