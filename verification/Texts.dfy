/** Character classes, stripping, searching and digits: the string operations both file readers use. */
module Texts {
  import opened Arithmetic

  /** The characters that Python's str.strip removes. */
  predicate IsSpace(c: char) {
    var n := c as int;
    || 9 <= n <= 13 || 28 <= n <= 32 || n == 0x85 || n == 0xa0 || n == 0x1680 || 0x2000 <= n <= 0x200a
    || n == 0x2028 || n == 0x2029 || n == 0x202f || n == 0x205f || n == 0x3000
  }

  function StripLeft(s: string): string {
    if s != "" && IsSpace(s[0]) then StripLeft(s[1..]) else s
  }

  function StripRight(s: string): string {
    if s != "" && IsSpace(s[|s| - 1]) then StripRight(s[..|s| - 1]) else s
  }

  function Strip(s: string): string {
    StripRight(StripLeft(s))
  }

  lemma {:induction false} StripLeftPadding(pad: string, s: string)
    requires forall c :: c in pad ==> IsSpace(c)
    requires s != "" && !IsSpace(s[0])
    ensures StripLeft(pad + s) == s
  {
    if pad == "" {
      assert pad + s == s;
    } else {
      assert (pad + s)[1..] == pad[1..] + s;
      StripLeftPadding(pad[1..], s);
    }
  }

  lemma {:induction false} StripRightPadding(s: string, pad: string)
    requires forall c :: c in pad ==> IsSpace(c)
    requires s != "" && !IsSpace(s[|s| - 1])
    ensures StripRight(s + pad) == s
  {
    if pad == "" {
      assert s + pad == s;
    } else {
      assert (s + pad)[..|s + pad| - 1] == s + pad[..|pad| - 1];
      StripRightPadding(s, pad[..|pad| - 1]);
    }
  }

  /** Stripping removes exactly the white space around a text that neither starts nor ends with any. */
  lemma StripPadding(left: string, s: string, right: string)
    requires forall c :: c in left || c in right ==> IsSpace(c)
    requires s != "" && !IsSpace(s[0]) && !IsSpace(s[|s| - 1])
    ensures Strip(left + s + right) == s
  {
    assert left + s + right == left + (s + right);
    StripLeftPadding(left, s + right);
    StripRightPadding(s, right);
  }

  /** The first position of c in s at or after start, or |s|. */
  function IndexOf(s: string, c: char, start: nat): (i: nat)
    requires start <= |s|
    ensures start <= i <= |s|
    ensures i < |s| ==> s[i] == c
    ensures forall k :: start <= k < i ==> s[k] != c
    decreases |s| - start
  {
    if start == |s| || s[start] == c then start else IndexOf(s, c, start + 1)
  }

  lemma IndexOfIs(s: string, c: char, start: nat, i: nat)
    requires start <= i < |s| && s[i] == c
    requires forall k :: start <= k < i ==> s[k] != c
    ensures IndexOf(s, c, start) == i
  {
    var j := IndexOf(s, c, start);
    assert j < |s| ==> s[j] == c;
  }

  predicate IsDigit(c: char) {
    '0' <= c <= '9'
  }

  predicate AllDigits(s: string) {
    forall c :: c in s ==> IsDigit(c)
  }

  function DigitOf(n: int): (c: char)
    requires 0 <= n <= 9
    ensures IsDigit(c)
  {
    '0' + n as char
  }

  function DigitValue(c: char): nat
    requires IsDigit(c)
  {
    c as int - '0' as int
  }

  function NumberOf(s: string): (n: nat)
    requires AllDigits(s)
  {
    if s == "" then 0 else 10 * NumberOf(s[..|s| - 1]) + DigitValue(s[|s| - 1])
  }

  /** The last `width` decimal digits of n, zero-padded. */
  function Padded(n: nat, width: nat): (s: string)
    ensures |s| == width && AllDigits(s)
  {
    if width == 0 then "" else Padded(n / 10, width - 1) + [DigitOf(n % 10)]
  }

  lemma DigitBack(n: nat)
    requires n <= 9
    ensures DigitValue(DigitOf(n)) == n
  {
  }

  lemma {:induction false} NumberOfPadded(n: nat, width: nat)
    requires n < Pow10(width)
    ensures NumberOf(Padded(n, width)) == n
  {
    if width > 0 {
      var s, init := Padded(n, width), Padded(n / 10, width - 1);
      assert s == init + [DigitOf(n % 10)] && s[..|s| - 1] == init;
      NumberOfPadded(n / 10, width - 1);
      DigitBack(n % 10);
      hide DigitOf, DigitValue, AllDigits, Padded;
    }
  }
}
