/** Decimal numerals: the text form JavaScript's `String(n)` gives an
    integer-valued number, and the value `+text` gives an optionally signed
    string of decimal digits. */
module Decimal {

  predicate IsDigit(ch: char) {
    '0' <= ch <= '9'
  }

  predicate AllDigits(s: string) {
    forall k :: 0 <= k < |s| ==> IsDigit(s[k])
  }

  function DigitValue(ch: char): (d: nat)
    requires IsDigit(ch)
    ensures d < 10
  {
    ch as int - '0' as int
  }

  function DigitChar(d: nat): (ch: char)
    requires d < 10
    ensures IsDigit(ch) && DigitValue(ch) == d
  {
    ('0' as int + d) as char
  }

  /** The value of a string of digits, most significant digit first. */
  function DigitsValue(s: string): nat
    requires AllDigits(s)
    decreases |s|
  {
    if |s| == 0 then 0 else DigitsValue(s[..|s| - 1]) * 10 + DigitValue(s[|s| - 1])
  }

  /** The shortest numeral of `n`: it starts with '0' only when it is "0". */
  function NatToString(n: nat): (r: string)
    ensures |r| > 0 && AllDigits(r)
    ensures r[0] == '0' <==> n == 0
    decreases n
  {
    if n < 10 then [DigitChar(n)] else NatToString(n / 10) + [DigitChar(n % 10)]
  }

  /** The form `String(n)` gives an integer: no plus sign and no leading
      zero, a minus sign only before a non-zero magnitude. */
  predicate Shortest(s: string) {
    && |s| > 0
    && s[0] != '+'
    && (s[0] == '-' ==> |s| > 1 && s[1] != '0')
    && (s[0] != '-' && |s| > 1 ==> s[0] != '0')
  }

  /** `String(n)` for an integer-valued JavaScript number; negative zero does
      not arise because the model's integers have a single zero. */
  function IntToString(n: int): (r: string)
    ensures Shortest(r)
    ensures n < 0 <==> r[0] == '-'
  {
    if n < 0 then "-" + NatToString(-n) else NatToString(n)
  }

  /** An optional sign followed by at least one decimal digit. */
  predicate IsDecimal(s: string) {
    && |s| > 0
    && if s[0] == '+' || s[0] == '-' then |s| > 1 && AllDigits(s[1..]) else AllDigits(s)
  }

  /** The integer a decimal numeral denotes (what unary `+` yields for it). */
  function DecimalValue(s: string): int
    requires IsDecimal(s)
  {
    if s[0] == '-' then -(DigitsValue(s[1..]) as int)
    else if s[0] == '+' then DigitsValue(s[1..])
    else DigitsValue(s)
  }

  /** Reading back the numeral of `n` gives `n`. */
  lemma {:induction false} NatToStringRoundTrip(n: nat)
    ensures DigitsValue(NatToString(n)) == n
  {
    if n >= 10 {
      var p := NatToString(n / 10);
      var r := p + [DigitChar(n % 10)];
      assert r[..|r| - 1] == p;
      NatToStringRoundTrip(n / 10);
    }
  }

  /** The text of an integer is a decimal numeral denoting that integer. */
  lemma IntToStringRoundTrip(n: int)
    ensures IsDecimal(IntToString(n))
    ensures DecimalValue(IntToString(n)) == n
  {
    if n < 0 {
      var s := IntToString(n);
      assert s[1..] == NatToString(-n);
      NatToStringRoundTrip(-n);
    } else {
      NatToStringRoundTrip(n);
    }
  }

  /** A non-empty digit string that does not start with '0' denotes a
      positive number. */
  lemma {:induction false} DigitsPositive(s: string)
    requires AllDigits(s) && |s| > 0 && s[0] != '0'
    ensures DigitsValue(s) > 0
    decreases |s|
  {
    if |s| > 1 {
      DigitsPositive(s[..|s| - 1]);
    }
  }

  /** Dividing by ten: equal values with equal last digits. */
  lemma SplitDigit(x: nat, d: nat, y: nat, e: nat)
    requires d < 10 && e < 10 && x * 10 + d == y * 10 + e
    ensures x == y && d == e
  {
  }

  /** Digit strings without leading zeros that denote the same number are
      the same string. */
  lemma {:induction false} DigitsInjective(a: string, b: string)
    requires AllDigits(a) && AllDigits(b) && |a| > 0 && |b| > 0
    requires a[0] == '0' ==> |a| == 1
    requires b[0] == '0' ==> |b| == 1
    requires DigitsValue(a) == DigitsValue(b)
    ensures a == b
    decreases |a|
  {
    var pa, pb := a[..|a| - 1], b[..|b| - 1];
    SplitDigit(DigitsValue(pa), DigitValue(a[|a| - 1]), DigitsValue(pb), DigitValue(b[|b| - 1]));
    assert a[|a| - 1] == b[|b| - 1];
    if |a| == 1 && |b| > 1 {
      DigitsPositive(pb);
    } else if |b| == 1 && |a| > 1 {
      DigitsPositive(pa);
    } else if |a| > 1 {
      DigitsInjective(pa, pb);
      assert a == pa + [a[|a| - 1]] && b == pb + [b[|b| - 1]];
    }
  }

  /** An integer has one shortest numeral: shortest numerals of the same
      value are equal, so `IntToString(n)` is the only one for `n`. */
  lemma ShortestUnique(a: string, b: string)
    requires IsDecimal(a) && IsDecimal(b) && Shortest(a) && Shortest(b)
    requires DecimalValue(a) == DecimalValue(b)
    ensures a == b
  {
    if a[0] == '-' {
      DigitsPositive(a[1..]);
    }
    if b[0] == '-' {
      DigitsPositive(b[1..]);
    }
    if a[0] == '-' && b[0] == '-' {
      DigitsInjective(a[1..], b[1..]);
      assert a == [a[0]] + a[1..] && b == [b[0]] + b[1..];
    } else if a[0] != '-' && b[0] != '-' {
      DigitsInjective(a, b);
    }
  }
}
