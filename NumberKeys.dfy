/**
 * Object keys are strings: `_.countBy` files each label under `String(label)`, and
 * score.js turns the winning key back into a number with `parseInt`.
 */
module NumberKeys {
  import opened Wrappers

  predicate IsDigit(c: char)
  {
    '0' <= c <= '9'
  }

  function DigitChar(d: nat): (c: char)
    requires d < 10
    ensures IsDigit(c)
  {
    ('0' as int + d) as char
  }

  function DigitValue(c: char): nat
    requires IsDigit(c)
  {
    c as int - '0' as int
  }

  predicate AllDigits(s: string)
  {
    forall i :: 0 <= i < |s| ==> IsDigit(s[i])
  }

  /** The decimal numeral of `n`, most significant digit first, without leading zeros. */
  function Decimal(n: nat): (s: string)
    ensures |s| > 0
  {
    if n < 10 then [DigitChar(n)] else Decimal(n / 10) + [DigitChar(n % 10)]
  }

  /** `String(i)` for an integer `i` (below 10^21 in magnitude, where no exponent appears). */
  function KeyString(i: int): (s: string)
    ensures |s| > 0 && (s[0] == '-' <==> i < 0)
  {
    var n := if i < 0 then -i else i;
    DecimalValue(n);
    assert IsDigit(Decimal(n)[0]);
    if i < 0 then "-" + Decimal(n) else Decimal(n)
  }

  /**
   * Reading digits from the front of `s` until the first non-digit, each one shifting `acc`
   * one decimal place.
   */
  function ScanDigits(s: string, acc: nat): nat
  {
    if |s| == 0 || !IsDigit(s[0]) then acc else ScanDigits(s[1..], acc * 10 + DigitValue(s[0]))
  }

  /**
   * `parseInt(s)` without a radix: an optional sign, then as many decimal digits as there
   * are; `None` (NaN) when there is no digit.
   */
  function ParseInt(s: string): Option<int>
  {
    var negative := |s| > 0 && s[0] == '-';
    var body := if |s| > 0 && (s[0] == '-' || s[0] == '+') then s[1..] else s;
    if |body| == 0 || !IsDigit(body[0]) then None
    else
      var value: int := ScanDigits(body, 0);
      Some(if negative then -value else value)
  }

  lemma {:induction false} ScanDigitsAppend(a: string, b: string, acc: nat)
    requires AllDigits(a)
    ensures ScanDigits(a + b, acc) == ScanDigits(b, ScanDigits(a, acc))
  {
    if |a| > 0 {
      assert (a + b)[1..] == a[1..] + b;
      ScanDigitsAppend(a[1..], b, acc * 10 + DigitValue(a[0]));
    } else {
      assert a + b == b;
    }
  }

  /** The numeral of `n` is all digits and reads back as `n`. */
  lemma {:induction false} DecimalValue(n: nat)
    ensures AllDigits(Decimal(n))
    ensures ScanDigits(Decimal(n), 0) == n
  {
    if n >= 10 {
      DecimalValue(n / 10);
      var c := DigitChar(n % 10);
      ScanDigitsAppend(Decimal(n / 10), [c], 0);
      assert ScanDigits([c], n / 10) == (n / 10) * 10 + n % 10;
    }
  }

  /** `parseInt(String(i)) == i`: the count table's keys turn back into the labels. */
  lemma ParseIntKeyString(i: int)
    ensures ParseInt(KeyString(i)) == Some(i)
  {
    var n := if i < 0 then -i else i;
    var s := KeyString(i);
    DecimalValue(n);
    if i < 0 {
      assert s[1..] == Decimal(n);
    }
    assert IsDigit(Decimal(n)[0]);
  }
}
