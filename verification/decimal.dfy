/** Decimal digit strings: `parseInt` on digit runs, `toString`, `String(n)` and `padStart(2, '0')`. */
module Decimal {
  import opened Chars
  import opened Optional

  function DigitValue(c: char): (d: nat)
    requires IsDigit(c)
    ensures d < 10
  {
    c as int - '0' as int
  }

  function DigitChar(d: nat): (c: char)
    requires d < 10
    ensures IsDigit(c) && DigitValue(c) == d
  {
    ('0' as int + d) as char
  }

  /** The value of a string of decimal digits, as `parseInt(s)` computes it for such strings. */
  function ParseDigits(s: string): nat
    requires AllDigits(s)
  {
    if |s| == 0 then 0 else ParseDigits(s[..|s| - 1]) * 10 + DigitValue(s[|s| - 1])
  }

  /** `n.toString()` for a non-negative integer: no leading zeros, and it reads back as `n`. */
  function NatToString(n: nat): (r: string)
    ensures |r| >= 1 && AllDigits(r)
    ensures ParseDigits(r) == n
    ensures |r| == 1 <==> n < 10
    ensures n < 100 ==> |r| <= 2
    ensures |r| > 1 ==> r[0] != '0'
    decreases n
  {
    if n < 10 then [DigitChar(n)]
    else
      var prefix := NatToString(n / 10);
      var r := prefix + [DigitChar(n % 10)];
      assert r[..|r| - 1] == prefix;
      r
  }

  /** A leading zero does not change the value of a digit string. */
  lemma {:induction false} LeadingZero(s: string)
    requires AllDigits(s)
    ensures AllDigits("0" + s) && ParseDigits("0" + s) == ParseDigits(s)
  {
    if |s| > 0 {
      var t := "0" + s;
      assert t[..|t| - 1] == "0" + s[..|s| - 1];
      LeadingZero(s[..|s| - 1]);
    }
  }

  /** `s.padStart(2, '0')`: left-pads with zeros to two characters. */
  function Pad2(s: string): (r: string)
    ensures |r| == if |s| >= 2 then |s| else 2
    ensures r[|r| - |s|..] == s
    ensures forall k :: 0 <= k < |r| - |s| ==> r[k] == '0'
  {
    if |s| >= 2 then s
    else if |s| == 1 then "0" + s
    else "00"
  }

  /** Padding a digit string keeps it a digit string of the same value. */
  lemma Pad2Value(s: string)
    requires AllDigits(s)
    ensures AllDigits(Pad2(s)) && ParseDigits(Pad2(s)) == ParseDigits(s)
  {
    if |s| == 1 {
      LeadingZero(s);
    } else if |s| == 0 {
      LeadingZero("0");
      LeadingZero("");
    }
  }

  /** `String(y)` for an integer: a minus sign before the digits of a negative number, no leading zero. */
  function IntToString(y: int): (r: string)
    ensures |r| >= 1
    ensures y >= 0 ==> AllDigits(r) && ParseDigits(r) == y
    ensures y >= 0 && |r| > 1 ==> r[0] != '0'
    ensures y < 0 ==> |r| >= 2 && r[0] == '-' && AllDigits(r[1..]) && ParseDigits(r[1..]) == -y
    ensures y < 0 ==> r[1] != '0'
  {
    if y < 0 then
      var n := NatToString(-y);
      var r := "-" + n;
      assert r[1..] == n;
      assert n[0] != '0' by {
        if |n| == 1 {
          assert n[..0] == "";
        }
      }
      r
    else NatToString(y)
  }

  /**
   * Reads an optionally signed decimal integer written as `String` writes one: no leading zero,
   * and no minus sign before zero. Only the text of `IntToString` is accepted.
   */
  function ParseInt(s: string): (r: Option<int>)
    ensures r.Some? ==> IntToString(r.value) == s
  {
    if |s| >= 2 && s[0] == '-' && AllDigits(s[1..]) && s[1] != '0' then
      var n := ParseDigits(s[1..]);
      CanonicalDigits(s[1..]);
      LeadingDigitPositive(s[1..]);
      assert s == "-" + s[1..];
      Some(-(n as int))
    else if |s| >= 1 && AllDigits(s) && (|s| > 1 ==> s[0] != '0') then
      CanonicalDigits(s);
      Some(ParseDigits(s))
    else None
  }

  /** A digit string with a non-zero first digit denotes a positive number. */
  lemma {:induction false} LeadingDigitPositive(s: string)
    requires |s| >= 1 && AllDigits(s) && s[0] != '0'
    ensures ParseDigits(s) >= 1
    decreases |s|
  {
    if |s| == 1 {
      assert s[..0] == "";
    } else {
      LeadingDigitPositive(s[..|s| - 1]);
    }
  }

  /** A digit string without a leading zero is the `toString` of the number it denotes. */
  lemma {:induction false} CanonicalDigits(s: string)
    requires |s| >= 1 && AllDigits(s) && (|s| > 1 ==> s[0] != '0')
    ensures NatToString(ParseDigits(s)) == s
    decreases |s|
  {
    var n := ParseDigits(s);
    if |s| == 1 {
      assert s[..0] == "" && ParseDigits(s[..0]) == 0;
      assert n == DigitValue(s[0]);
      assert NatToString(n) == [DigitChar(n)];
    } else {
      var prefix := s[..|s| - 1];
      assert prefix[0] == s[0];
      CanonicalDigits(prefix);
      LeadingDigitPositive(prefix);
      assert n == ParseDigits(prefix) * 10 + DigitValue(s[|s| - 1]);
      assert n / 10 == ParseDigits(prefix) && n % 10 == DigitValue(s[|s| - 1]);
      assert s == prefix + [s[|s| - 1]];
    }
  }

  /** Formatting an integer as `String` does and reading it back gives the integer. */
  lemma IntRoundTrip(y: int)
    ensures ParseInt(IntToString(y)) == Some(y)
  {
    var r := IntToString(y);
    if y >= 0 {
      assert r[0] != '-' by { assert IsDigit(r[0]); }
    }
  }
}
