/**
 * Decimal rendering of integers, as Python's `str(int)` produces it when the
 * csv writers turn the coordinate fields into text (get_promoter.py:69-70, 77),
 * and the reading back of such a field.
 */
module Decimal {

  predicate IsDigit(c: char)
  {
    '0' <= c <= '9'
  }

  predicate AllDigits(s: string)
  {
    forall i :: 0 <= i < |s| ==> IsDigit(s[i])
  }

  function DigitChar(d: nat): (c: char)
    requires d < 10
    ensures IsDigit(c)
  {
    ('0' as int + d) as char
  }

  function DigitValue(c: char): (d: nat)
    requires IsDigit(c)
    ensures d < 10 && DigitChar(d) == c
  {
    c as int - '0' as int
  }

  /** The digits of a natural number, most significant first, without leading zeros. */
  function NatToString(n: nat): (s: string)
    ensures |s| >= 1 && AllDigits(s)
    ensures s[0] == '0' ==> n == 0 && |s| == 1
  {
    if n < 10 then [DigitChar(n)] else NatToString(n / 10) + [DigitChar(n % 10)]
  }

  /** The value of a string of digits (the empty string reads as 0). */
  function ParseNat(s: string): nat
    requires AllDigits(s)
  {
    if s == [] then 0 else 10 * ParseNat(s[..|s| - 1]) + DigitValue(s[|s| - 1])
  }

  lemma {:induction false} ParseNatToString(n: nat)
    ensures ParseNat(NatToString(n)) == n
  {
    var s := NatToString(n);
    if n >= 10 {
      ParseNatToString(n / 10);
      assert s[..|s| - 1] == NatToString(n / 10);
      assert DigitValue(s[|s| - 1]) == n % 10;
    } else {
      assert s[..|s| - 1] == [];
    }
  }

  /**
   * The text carries no zero padding: only "0" itself starts with a zero,
   * and no minus sign is followed by one (so there is no "-0").
   */
  predicate Canonical(s: string)
  {
    && |s| >= 1
    && (s[0] == '0' ==> s == "0")
    && (s[0] == '-' ==> |s| >= 2 && s[1] != '0')
  }

  /** Python's `str(n)`: an optional minus sign followed by the digits of |n|. */
  function IntToString(n: int): (s: string)
    ensures |s| >= 1
    ensures n < 0 <==> s[0] == '-'
    ensures n < 0 ==> |s| >= 2 && AllDigits(s[1..])
    ensures n >= 0 ==> AllDigits(s)
    ensures Canonical(s)
  {
    if n < 0 then "-" + NatToString(-n) else NatToString(n)
  }

  /** A field that holds the text of an integer: a minus sign and digits, or digits only. */
  predicate IsNumeral(s: string)
  {
    if |s| > 0 && s[0] == '-' then |s| >= 2 && AllDigits(s[1..]) else |s| >= 1 && AllDigits(s)
  }

  /** Reads back a numeral, as Python's `int(s)` does for the text `str` writes. */
  function ParseInt(s: string): int
    requires IsNumeral(s)
  {
    if s[0] == '-' then -(ParseNat(s[1..]) as int) else ParseNat(s)
  }

  /** Every coordinate written as text reads back as the same integer. */
  lemma {:induction false} ParseIntToString(n: int)
    ensures IsNumeral(IntToString(n))
    ensures ParseInt(IntToString(n)) == n
  {
    var s := IntToString(n);
    if n < 0 {
      ParseNatToString(-n);
      assert s[1..] == NatToString(-n);
    } else {
      ParseNatToString(n);
    }
  }

  /** Two different integers are never written as the same text. */
  lemma IntToStringInjective(m: int, n: int)
    ensures IntToString(m) == IntToString(n) <==> m == n
  {
    ParseIntToString(m);
    ParseIntToString(n);
  }

  /** Digits that do not start with a zero stand for a positive number. */
  lemma {:induction false} ParseNatPositive(s: string)
    requires |s| >= 1 && AllDigits(s) && s[0] != '0'
    ensures ParseNat(s) >= 1
  {
    if |s| > 1 {
      ParseNatPositive(s[..|s| - 1]);
    }
  }

  /** Digits without zero padding are the text of their own value. */
  lemma {:induction false} NatToStringParse(s: string)
    requires |s| >= 1 && AllDigits(s) && (s[0] == '0' ==> s == "0")
    ensures NatToString(ParseNat(s)) == s
  {
    var p := s[..|s| - 1];
    var d := DigitValue(s[|s| - 1]);
    if |s| == 1 {
      assert p == [];
      assert ParseNat(s) == d;
    } else {
      assert p[0] == s[0];
      NatToStringParse(p);
      ParseNatPositive(p);
      NatToStringAppend(ParseNat(p), d);
      assert s == p + [s[|s| - 1]];
    }
  }

  /**
   * The converse of `ParseIntToString`: a numeral without zero padding is
   * exactly what `str` writes for its value, so the fields `str` produces
   * are precisely the canonical numerals.
   */
  lemma IntToStringParse(s: string)
    requires IsNumeral(s) && Canonical(s)
    ensures IntToString(ParseInt(s)) == s
  {
    if s[0] == '-' {
      var t := s[1..];
      ParseNatPositive(t);
      NatToStringParse(t);
      assert s == "-" + t;
    } else {
      NatToStringParse(s);
    }
  }

  /** Appending a digit to a positive number appends its character to the text. */
  lemma NatToStringAppend(n: nat, d: nat)
    requires n >= 1 && d < 10
    ensures NatToString(10 * n + d) == NatToString(n) + [DigitChar(d)]
  {
    assert (10 * n + d) / 10 == n && (10 * n + d) % 10 == d;
  }

  /** Worked values: the coordinates of a gene at 100000..105000 and of its promoter window. */
  lemma IntToStringExamples()
    ensures IntToString(1) == "1"
    ensures IntToString(99000) == "99000" && IntToString(99999) == "99999"
    ensures IntToString(100000) == "100000" && IntToString(105000) == "105000"
  {
    NineNines();
    TensOfThousands();
  }

  lemma NineNines()
    ensures NatToString(99000) == "99000" && NatToString(99999) == "99999"
  {
    NatToStringAppend(9, 9);
    assert NatToString(99) == "99";
    NatToStringAppend(99, 0);
    assert NatToString(990) == "990";
    NatToStringAppend(990, 0);
    assert NatToString(9900) == "9900";
    NatToStringAppend(9900, 0);
    NatToStringAppend(99, 9);
    assert NatToString(999) == "999";
    NatToStringAppend(999, 9);
    assert NatToString(9999) == "9999";
    NatToStringAppend(9999, 9);
  }

  lemma TensOfThousands()
    ensures NatToString(100000) == "100000" && NatToString(105000) == "105000"
  {
    NatToStringAppend(1, 0);
    assert NatToString(10) == "10";
    NatToStringAppend(10, 0);
    assert NatToString(100) == "100";
    NatToStringAppend(10, 5);
    assert NatToString(105) == "105";
    NatToStringAppend(100, 0);
    assert NatToString(1000) == "1000";
    NatToStringAppend(105, 0);
    assert NatToString(1050) == "1050";
    NatToStringAppend(1000, 0);
    assert NatToString(10000) == "10000";
    NatToStringAppend(1050, 0);
    assert NatToString(10500) == "10500";
    NatToStringAppend(10000, 0);
    NatToStringAppend(10500, 0);
  }
}
