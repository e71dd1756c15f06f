/** Python's zero-padded integer formatting (`"{:04d}"`, `"{:02d}"`) and the
    `YYYY` and `YYYY/MM` strings the converter builds page paths from. */
module Format {

  function DigitChar(d: nat): char
    requires d < 10
  {
    (('0' as int) + d) as char
  }

  predicate IsDigit(c: char) {
    '0' <= c <= '9'
  }

  function DigitValue(c: char): nat {
    if IsDigit(c) then (c as int) - ('0' as int) else 0
  }

  /** Decimal digits of `n`, most significant first, without leading zeros. */
  function Digits(n: nat): (r: string)
    ensures |r| >= 1
    ensures forall k :: 0 <= k < |r| ==> IsDigit(r[k])
  {
    if n < 10 then [DigitChar(n)] else Digits(n / 10) + [DigitChar(n % 10)]
  }

  function Zeros(k: nat): (r: string)
    ensures |r| == k
    ensures forall i :: 0 <= i < k ==> r[i] == '0'
  {
    if k == 0 then "" else "0" + Zeros(k - 1)
  }

  function ZeroPad(digits: string, width: nat): string {
    if |digits| >= width then digits else Zeros(width - |digits|) + digits
  }

  /** Python's `"{:0<width>d}".format(n)`: the sign counts towards the width and the
      zeros go between the sign and the digits. */
  function PadInt(n: int, width: nat): string {
    if n >= 0 then ZeroPad(Digits(n), width)
    else "-" + ZeroPad(Digits(-n), if width > 0 then width - 1 else 0)
  }

  /** `"{:04d}".format(year)` */
  function YearText(year: int): string {
    PadInt(year, 4)
  }

  /** `"{:04d}/{:02d}".format(year, month)` */
  function DateText(year: int, month: int): string {
    PadInt(year, 4) + "/" + PadInt(month, 2)
  }

  /** The number a string of decimal digits denotes. */
  function Value(s: string): nat {
    if s == [] then 0 else Value(s[..|s| - 1]) * 10 + DigitValue(s[|s| - 1])
  }

  function Pow10(k: nat): (r: nat)
    ensures r >= 1
  {
    if k == 0 then 1 else 10 * Pow10(k - 1)
  }

  lemma {:induction false} ValueOfDigits(n: nat)
    ensures Value(Digits(n)) == n
  {
    var d := Digits(n);
    if n >= 10 {
      assert d[..|d| - 1] == Digits(n / 10);
      ValueOfDigits(n / 10);
    }
  }

  lemma {:induction false} ValueLeadingZero(s: string)
    ensures Value("0" + s) == Value(s)
  {
    if s != [] {
      assert ("0" + s)[..|s|] == "0" + s[..|s| - 1];
      ValueLeadingZero(s[..|s| - 1]);
    }
  }

  lemma {:induction false} ValueLeadingZeros(k: nat, s: string)
    ensures Value(Zeros(k) + s) == Value(s)
  {
    if k > 0 {
      var rest := Zeros(k - 1) + s;
      assert Zeros(k) + s == "0" + rest;
      ValueLeadingZero(rest);
      ValueLeadingZeros(k - 1, s);
      assert Value(Zeros(k) + s) == Value("0" + rest) == Value(rest);
    } else {
      assert Zeros(k) + s == s;
    }
  }

  lemma {:induction false} DigitsLength(n: nat, width: nat)
    requires n < Pow10(width)
    ensures |Digits(n)| <= width || (n == 0 && width == 0)
  {
    if n >= 10 {
      DigitsLength(n / 10, width - 1);
    }
  }

  /** Formatting a non-negative number zero-padded to `width` digits and reading
      the digits back gives the number again; below `10^width` the text is
      exactly `width` characters long. */
  lemma PadIntRoundTrip(n: nat, width: nat)
    ensures Value(PadInt(n, width)) == n
    ensures |PadInt(n, width)| >= width
    ensures forall k :: 0 <= k < |PadInt(n, width)| ==> IsDigit(PadInt(n, width)[k])
    ensures 0 < width && n < Pow10(width) ==> |PadInt(n, width)| == width
  {
    var d := Digits(n);
    ValueOfDigits(n);
    if |d| < width {
      ValueLeadingZeros(width - |d|, d);
    }
    if 0 < width && n < Pow10(width) {
      DigitsLength(n, width);
    }
  }

  /** Two months of years 0..9999 get the same `YYYY/MM` text only if they are
      the same month, so distinct index entries of that range get distinct month
      pages unless they repeat a (year, month) pair. */
  lemma DateTextInjective(y1: int, m1: int, y2: int, m2: int)
    requires 0 <= y1 < 10000 && 0 <= y2 < 10000
    requires 0 <= m1 < 100 && 0 <= m2 < 100
    requires DateText(y1, m1) == DateText(y2, m2)
    ensures y1 == y2 && m1 == m2
  {
    PadIntRoundTrip(y1, 4);
    PadIntRoundTrip(y2, 4);
    PadIntRoundTrip(m1, 2);
    PadIntRoundTrip(m2, 2);
    var a, b := DateText(y1, m1), DateText(y2, m2);
    assert a[..4] == PadInt(y1, 4) && b[..4] == PadInt(y2, 4);
    assert a[5..] == PadInt(m1, 2) && b[5..] == PadInt(m2, 2);
  }

  /** Likewise for the `YYYY` text of a year page. */
  lemma YearTextInjective(y1: int, y2: int)
    requires 0 <= y1 < 10000 && 0 <= y2 < 10000
    requires YearText(y1) == YearText(y2)
    ensures y1 == y2
  {
    PadIntRoundTrip(y1, 4);
    PadIntRoundTrip(y2, 4);
  }
}
