/** Numbers in decimal. */
module Text {
  predicate IsDigit(c: char) { '0' <= c <= '9' }

  predicate AllDigits(s: string) { forall c :: c in s ==> IsDigit(c) }

  function Digit(d: nat): char
    requires d < 10
  {
    '0' + d as char
  }

  function DigitValue(c: char): nat
    requires IsDigit(c)
  {
    (c as int) - ('0' as int)
  }

  /** `n` in decimal, with zeros in front up to `width` digits. */
  function Decimal(n: nat, width: nat): (s: string)
    ensures AllDigits(s) && s != []
    decreases n + width
  {
    if n < 10 && width <= 1 then [Digit(n)]
    else Decimal(n / 10, if width == 0 then 0 else width - 1) + [Digit(n % 10)]
  }

  function ParseDecimal(s: string): nat
    requires AllDigits(s)
  {
    if s == [] then 0 else 10 * ParseDecimal(s[..|s| - 1]) + DigitValue(s[|s| - 1])
  }

  lemma LastDigit(head: string, d: nat)
    requires AllDigits(head) && d < 10
    ensures AllDigits(head + [Digit(d)]) && ParseDecimal(head + [Digit(d)]) == 10 * ParseDecimal(head) + d
  {
    var s := head + [Digit(d)];
    assert s[..|head|] == head;
  }

  lemma {:induction false} ParseOfDecimal(n: nat, width: nat)
    ensures ParseDecimal(Decimal(n, width)) == n
    decreases n + width
  {
    if n < 10 && width <= 1 {
      LastDigit([], n);
      assert [] + [Digit(n)] == [Digit(n)];
    } else {
      var shorter := if width == 0 then 0 else width - 1;
      var head := Decimal(n / 10, shorter);
      ParseOfDecimal(n / 10, shorter);
      LastDigit(head, n % 10);
      assert Decimal(n, width) == head + [Digit(n % 10)];
    }
  }

  function Pow10(k: nat): nat { if k == 0 then 1 else 10 * Pow10(k - 1) }

  lemma {:induction false} DecimalLength(n: nat, width: nat)
    requires width >= 1
    ensures |Decimal(n, width)| >= width
    ensures |Decimal(n, width)| == width <==> n < Pow10(width)
    decreases n + width
  {
    if width > 1 {
      DecimalLength(n / 10, width - 1);
    } else if n >= 10 {
      assert |Decimal(n / 10, 0)| >= 1;
    }
  }

  lemma ParseAppendTwo(s: string, two: string)
    requires AllDigits(s) && AllDigits(two) && |two| == 2
    ensures AllDigits(s + two) && ParseDecimal(s + two) == 100 * ParseDecimal(s) + ParseDecimal(two)
  {
    var st := s + two;
    assert st[..|s| + 1] == s + [two[0]] && (s + [two[0]])[..|s|] == s;
    assert two[..1] == [two[0]];
    assert ParseDecimal([two[0]]) == DigitValue(two[0]);
  }
}
