/** Numbers as text: decimal and hexadecimal digits, without leading zeros. */
module Numerals {

  predicate IsDigit(c: char) {
    '0' <= c <= '9'
  }

  function Digit(d: nat): (c: char)
    requires d < 10
    ensures IsDigit(c) && c as int - '0' as int == d
  {
    '0' + d as char
  }

  function Decimal(n: nat): (s: string)
    ensures s != [] && forall c | c in s :: IsDigit(c)
  {
    if n < 10 then [Digit(n)] else Decimal(n / 10) + [Digit(n % 10)]
  }

  // The number that the digits at the front of s add to n.
  function DigitsFrom(s: string, n: nat): nat {
    if s != [] && IsDigit(s[0]) then DigitsFrom(s[1..], n * 10 + (s[0] as int - '0' as int)) else n
  }

  lemma {:induction false} DigitsConcat(s: string, t: string, n: nat)
    requires forall c | c in s :: IsDigit(c)
    ensures DigitsFrom(s + t, n) == DigitsFrom(t, DigitsFrom(s, n))
  {
    if s == [] {
      assert s + t == t;
    } else {
      assert (s + t)[1..] == s[1..] + t && s[0] in s;
      DigitsConcat(s[1..], t, n * 10 + (s[0] as int - '0' as int));
    }
  }

  // A printed number is read back.
  lemma {:induction false} DigitsOfDecimal(n: nat)
    ensures DigitsFrom(Decimal(n), 0) == n
  {
    if n >= 10 {
      DigitsOfDecimal(n / 10);
      DigitsConcat(Decimal(n / 10), [Digit(n % 10)], 0);
    }
    assert forall d: nat, m: nat | d < 10 :: DigitsFrom([Digit(d)], m) == m * 10 + d;
  }

  function HexDigit(d: nat): (c: char)
    requires d < 16
    ensures HexDigitValue(c) == d && c != ':'
  {
    if d < 10 then '0' + d as char else 'a' + (d - 10) as char
  }

  function HexDigitValue(c: char): int {
    if c <= '9' then c as int - '0' as int else c as int - 'a' as int + 10
  }

  function Hex(n: nat): (s: string)
    ensures s != [] && ':' !in s
  {
    if n < 16 then [HexDigit(n)] else Hex(n / 16) + [HexDigit(n % 16)]
  }

  function HexValue(s: string): int {
    if s == "" then 0 else HexValue(s[..|s| - 1]) * 16 + HexDigitValue(s[|s| - 1])
  }

  lemma {:induction false} ValueOfHex(n: nat)
    ensures HexValue(Hex(n)) == n
  {
    if n < 16 {
      assert Hex(n)[..0] == "";
    } else {
      ValueOfHex(n / 16);
      assert Hex(n)[..|Hex(n)| - 1] == Hex(n / 16);
    }
  }

  // Sixteen bits take at most four digits.
  lemma HexLength(n: nat)
    requires n < 0x10000
    ensures |Hex(n)| <= 4
  {
    var a, b, c := n / 16, n / 16 / 16, n / 16 / 16 / 16;
    assert c < 16 && |Hex(c)| == 1;
    assert |Hex(b)| <= 2 && |Hex(a)| <= 3;
  }

  // The digits in use: from ten on small letters.
  lemma HexDigitsAre(d: nat)
    requires d < 16
    ensures HexDigit(d) == "0123456789abcdef"[d]
  {
  }

  // No number but zero starts with a zero.
  lemma {:induction false} NoLeadingZero(n: nat)
    requires n > 0
    ensures Hex(n)[0] != '0'
    ensures Decimal(n)[0] != '0'
  {
    if n >= 16 {
      NoLeadingZero(n / 16);
    }
    if n >= 10 {
      NoLeadingZero(n / 10);
    }
  }

  // A text of at most four digits, with zeros before it to make four.
  function Padded(s: string): (r: string)
    requires |s| <= 4
    ensures |r| == 4
  {
    "0000"[|s|..] + s
  }

  lemma HexPadded(n: nat)
    requires n < 0x10000
    ensures |Hex(n)| <= 4
    ensures Padded(Hex(n)) == [HexDigit(n / 16 / 16 / 16), HexDigit(n / 16 / 16 % 16), HexDigit(n / 16 % 16), HexDigit(n % 16)]
  {
    HexLength(n);
    if n < 16 {
      assert HexDigit(0) == '0';
    } else if n / 16 < 16 {
      assert Hex(n) == [HexDigit(n / 16)] + [HexDigit(n % 16)] && HexDigit(0) == '0';
    } else if n / 16 / 16 < 16 {
      assert Hex(n / 16) == [HexDigit(n / 16 / 16)] + [HexDigit(n / 16 % 16)] && HexDigit(0) == '0';
    } else {
      assert Hex(n / 16 / 16) == [HexDigit(n / 16 / 16 / 16)] + [HexDigit(n / 16 / 16 % 16)];
      assert Hex(n / 16) == Hex(n / 16 / 16) + [HexDigit(n / 16 % 16)];
    }
  }
}
