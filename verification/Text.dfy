/** Decimal numerals as JavaScript prints them, zero padding, and the order in which strings sort. */
module Text {

  function Digit(n: nat): (c: char)
    requires n < 10
    ensures '0' <= c <= '9'
  {
    '0' + n as char
  }

  /** `String(n)` of a non-negative integer. */
  function Numeral(n: nat): (s: string)
    ensures |s| > 0 && forall c <- s :: '0' <= c <= '9'
  {
    if n < 10 then [Digit(n)] else Numeral(n / 10) + [Digit(n % 10)]
  }

  /** `String(n)` of any integer. */
  function IntegerText(n: int): string {
    if n < 0 then "-" + Numeral(-n) else Numeral(n)
  }

  /** `s.padStart(2, '0')`. */
  function PadTwo(s: string): string {
    if |s| == 0 then "00" else if |s| == 1 then "0" + s else s
  }

  function DigitValue(c: char): int {
    c as int - '0' as int
  }

  /** The number a string of digits denotes, as unary `+` reads it. */
  function NumeralValue(s: string): int {
    if s == [] then 0 else 10 * NumeralValue(s[..|s| - 1]) + DigitValue(s[|s| - 1])
  }

  predicate AllDigits(s: string) {
    forall c <- s :: '0' <= c <= '9'
  }

  lemma {:induction false} NumeralRoundTrip(n: nat)
    ensures NumeralValue(Numeral(n)) == n
  {
    if n >= 10 {
      NumeralRoundTrip(n / 10);
      assert Numeral(n)[..|Numeral(n)| - 1] == Numeral(n / 10);
    }
  }

  lemma SignShows(n: int)
    ensures IntegerText(n) != [] && (IntegerText(n)[0] == '-' <==> n < 0)
    ensures AllDigits(IntegerText(n)) <==> n >= 0
  {
    if n >= 0 {
      assert Numeral(n)[0] in Numeral(n);
    } else {
      assert IntegerText(n)[0] == '-' && IntegerText(n)[0] in IntegerText(n);
    }
  }

  /** Different integers print differently. */
  lemma IntegerTextIsInjective(m: int, n: int)
    requires IntegerText(m) == IntegerText(n)
    ensures m == n
  {
    hide Numeral, NumeralValue;
    SignShows(m);
    SignShows(n);
    if m < 0 {
      assert IntegerText(m)[1..] == Numeral(-m) && IntegerText(n)[1..] == Numeral(-n);
      NumeralRoundTrip(-m);
      NumeralRoundTrip(-n);
    } else {
      NumeralRoundTrip(m);
      NumeralRoundTrip(n);
    }
  }

  lemma {:induction false} NumeralLength(n: nat, width: nat, power: nat)
    requires width > 0 && power == Power(width)
    ensures |Numeral(n)| <= width <==> n < power
    decreases width
  {
    if width == 1 {
    } else if n >= 10 {
      NumeralLength(n / 10, width - 1, Power(width - 1));
    } else {
      PowerGrows(width);
    }
  }

  function Power(width: nat): nat {
    if width == 0 then 1 else 10 * Power(width - 1)
  }

  lemma PowerGrows(width: nat)
    requires width > 0
    ensures Power(width) >= 10
  {
  }

  /** Exactly the years 1000 to 9999 print as four digits. */
  lemma FourDigits(n: int)
    ensures |IntegerText(n)| == 4 && AllDigits(IntegerText(n)) <==> 1000 <= n <= 9999
  {
    assert Power(3) == 1000 && Power(4) == 10000 by {
      assert Power(1) == 10 && Power(2) == 100;
    }
    SignShows(n);
    if n >= 0 {
      NumeralLength(n, 4, Power(4));
      NumeralLength(n, 3, Power(3));
    }
  }

  /** A padded one- or two-digit number is two digits, and reads back. */
  lemma TwoDigits(n: nat)
    requires n < 100
    ensures PadTwo(IntegerText(n)) == [Digit(n / 10), Digit(n % 10)]
    ensures NumeralValue(PadTwo(IntegerText(n))) == n
  {
    var d := [Digit(n / 10), Digit(n % 10)];
    if n >= 10 {
      assert Numeral(n / 10) == [Digit(n / 10)];
    }
    assert d[..1] == [Digit(n / 10)];
    assert NumeralValue([Digit(n / 10)]) == n / 10 by { assert [Digit(n / 10)][..0] == []; }
    assert NumeralValue(d) == 10 * (n / 10) + n % 10;
  }

  // ----- How strings sort

  /** `a` sorts strictly before `b`. */
  predicate Before(a: string, b: string) {
    && b != []
    && (a == [] || a[0] < b[0] || (a[0] == b[0] && Before(a[1..], b[1..])))
  }

  lemma {:induction false} BeforeByPrefix(a: string, b: string, c: string, d: string)
    requires |a| == |b| && Before(a, b)
    ensures Before(a + c, b + d)
  {
    assert a != [];
    if a[0] == b[0] {
      BeforeByPrefix(a[1..], b[1..], c, d);
    }
    assert (a + c)[1..] == a[1..] + c && (b + d)[1..] == b[1..] + d;
  }

  lemma {:induction false} BeforeBySuffix(a: string, c: string, d: string)
    requires Before(c, d)
    ensures Before(a + c, a + d)
  {
    if a == [] {
      assert a + c == c && a + d == d;
    } else {
      BeforeBySuffix(a[1..], c, d);
      assert (a + c)[1..] == a[1..] + c && (a + d)[1..] == a[1..] + d;
    }
  }

  /** Numerals of equal length sort like the numbers they denote. */
  lemma {:induction false} NumeralsSort(m: nat, n: nat)
    requires m < n && |Numeral(m)| == |Numeral(n)|
    ensures Before(Numeral(m), Numeral(n))
  {
    if n < 10 {
    } else if m / 10 == n / 10 {
      BeforeBySuffix(Numeral(m / 10), [Digit(m % 10)], [Digit(n % 10)]);
    } else {
      NumeralsSort(m / 10, n / 10);
      BeforeByPrefix(Numeral(m / 10), Numeral(n / 10), [Digit(m % 10)], [Digit(n % 10)]);
    }
  }

  lemma PaddedNumbersSort(m: nat, n: nat)
    requires m < n < 100
    ensures Before(PadTwo(IntegerText(m)), PadTwo(IntegerText(n)))
    ensures |PadTwo(IntegerText(m))| == |PadTwo(IntegerText(n))| == 2
  {
    TwoDigits(m);
    TwoDigits(n);
    if m / 10 == n / 10 {
      BeforeBySuffix([Digit(m / 10)], [Digit(m % 10)], [Digit(n % 10)]);
    }
  }

  lemma YearsSort(m: int, n: int)
    requires 1000 <= m < n <= 9999
    ensures Before(IntegerText(m), IntegerText(n))
    ensures |IntegerText(m)| == |IntegerText(n)| == 4
  {
    FourDigits(m);
    FourDigits(n);
    NumeralsSort(m, n);
  }
}
