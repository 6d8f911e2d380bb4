/** Finite decimal numerals, as Python's Decimal constructor reads them from text. */
module NumberText {
  import opened Arithmetic
  import opened Outcomes
  import opened Texts
  import opened DecimalArithmetic

  function UnsignedPart(s: string): string {
    if s != "" && (s[0] == '-' || s[0] == '+') then s[1..] else s
  }

  predicate HasMinus(s: string) {
    s != "" && s[0] == '-'
  }

  function ExponentMark(s: string): (i: nat)
    ensures i <= |s|
  {
    var e, E := IndexOf(s, 'e', 0), IndexOf(s, 'E', 0);
    if e < E then e else E
  }

  /** An optional sign and at least one digit. */
  function Integer(s: string): Option<int> {
    var digits := UnsignedPart(s);
    if digits != "" && AllDigits(digits)
    then Some(if HasMinus(s) then 0 - NumberOf(digits) else NumberOf(digits)) else None
  }

  /** digits, digits.digits or .digits, as the digits without the point and how many follow it. */
  function Mantissa(s: string): Option<(int, int)> {
    var p := IndexOf(s, '.', 0);
    var whole, fraction := s[..p], if p < |s| then s[p + 1..] else "";
    if whole + fraction != "" && AllDigits(whole + fraction)
    then Some((NumberOf(whole + fraction), |fraction|)) else None
  }

  function ParseDecimal(text: string): Option<Decimal> {
    var s := Strip(text);
    var body := UnsignedPart(s);
    var e := ExponentMark(body);
    var mantissa := Mantissa(body[..e]);
    var exponent := if e < |body| then Integer(body[e + 1..]) else Some(0);
    if mantissa.None? || exponent.None? then None
    else
      var (digits, places) := mantissa.value;
      Some(Decimal(if HasMinus(s) then 0 - digits else digits, exponent.value - places))
  }

  function CommaToPoint(s: string): (r: string)
    ensures |r| == |s|
  {
    seq(|s|, i requires 0 <= i < |s| => if s[i] == ',' then '.' else s[i])
  }

  /** Both file readers accept a decimal comma. */
  function ParseAmount(text: string): Option<Decimal> {
    ParseDecimal(CommaToPoint(text))
  }

  lemma {:induction false} NumberOfAppend(a: string, b: string)
    requires AllDigits(a) && AllDigits(b)
    ensures AllDigits(a + b) && NumberOf(a + b) == NumberOf(a) * Pow10(|b|) + NumberOf(b)
  {
    if b == "" {
      assert a + b == a;
    } else {
      var init := b[..|b| - 1];
      NumberOfAppend(a, init);
      assert (a + b)[..|a + b| - 1] == a + init;
      assert 10 * (NumberOf(a) * Pow10(|init|)) == NumberOf(a) * Pow10(|b|);
    }
  }
}
