/** Calendar dates as the radar stores them: strings of the shape
    `YYYY-MM-DD`. The model reads such a string as the number YYYYMMDD, which
    orders and identifies dates exactly as the strings do, so comparing two
    `Date` values is comparing the calendar days they name. */
module Dates {
  import opened Common

  /** A day written as the eight decimal digits YYYYMMDD. */
  type Date = d: int | 0 <= d <= 99999999

  /** The schema pattern `^\d{4}-\d{2}-\d{2}$`. */
  predicate IsIsoDate(s: string)
  {
    |s| == 10 && AllDigits(s[..4]) && s[4] == '-' && AllDigits(s[5..7]) && s[7] == '-' && AllDigits(s[8..])
  }

  function Pow10(n: nat): (r: nat)
    ensures r >= 1
  {
    if n == 0 then 1 else 10 * Pow10(n - 1)
  }

  function DigitValue(c: char): (r: nat)
    requires IsDigit(c)
    ensures r < 10
  {
    c as int - '0' as int
  }

  function DigitChar(n: nat): (c: char)
    requires n < 10
    ensures IsDigit(c) && DigitValue(c) == n
  {
    ('0' as int + n) as char
  }

  /** The number a string of decimal digits denotes. */
  function DigitsValue(ds: string): (r: nat)
    requires AllDigits(ds)
    ensures r < Pow10(|ds|)
  {
    if ds == [] then 0 else 10 * DigitsValue(ds[..|ds| - 1]) + DigitValue(ds[|ds| - 1])
  }

  /** The `width` lowest decimal digits of `n`, zero-padded. */
  function Digits(n: nat, width: nat): (r: string)
    ensures |r| == width && AllDigits(r)
  {
    if width == 0 then [] else Digits(n / 10, width - 1) + [DigitChar(n % 10)]
  }

  lemma {:induction false} DigitsValueOfDigits(n: nat, width: nat)
    requires n < Pow10(width)
    ensures DigitsValue(Digits(n, width)) == n
  {
    if width > 0 {
      var ds := Digits(n, width);
      assert ds[..|ds| - 1] == Digits(n / 10, width - 1);
      DigitsValueOfDigits(n / 10, width - 1);
    }
  }

  lemma {:induction false} DigitsOfDigitsValue(ds: string)
    requires AllDigits(ds)
    ensures Digits(DigitsValue(ds), |ds|) == ds
  {
    if ds != [] {
      var init := ds[..|ds| - 1];
      var n := DigitsValue(ds);
      assert n / 10 == DigitsValue(init) && n % 10 == DigitValue(ds[|ds| - 1]);
      DigitsOfDigitsValue(init);
      assert DigitChar(DigitValue(ds[|ds| - 1])) == ds[|ds| - 1];
      assert ds == init + [ds[|ds| - 1]];
    }
  }

  /** The day a `YYYY-MM-DD` string names, or None when the string does not
      have that shape. */
  function ParseDate(s: string): (r: Option<Date>)
    ensures r.Some? <==> IsIsoDate(s)
  {
    if IsIsoDate(s) then
      Some(DigitsValue(s[..4]) * 10000 + DigitsValue(s[5..7]) * 100 + DigitsValue(s[8..]))
    else None
  }

  /** The `YYYY-MM-DD` string of a day, as `format(date, "yyyy-MM-dd")`
      writes it. */
  function FormatDate(d: Date): (s: string)
    ensures IsIsoDate(s)
  {
    Digits(d / 10000, 4) + "-" + Digits(d / 100 % 100, 2) + "-" + Digits(d % 100, 2)
  }

  lemma SplitDate(d: Date)
    ensures d / 10000 < 10000 && d / 100 % 100 < 100 && d % 100 < 100
    ensures d == d / 10000 * 10000 + d / 100 % 100 * 100 + d % 100
  {
    var q := d / 100;
    assert d == q * 100 + d % 100;
    assert q == q / 100 * 100 + q % 100;
    assert q / 100 == d / 10000;
  }

  lemma JoinDate(d: int, y: nat, m: nat, dd: nat)
    requires y < 10000 && m < 100 && dd < 100
    requires d == y * 10000 + m * 100 + dd
    ensures d / 10000 == y && d / 100 % 100 == m && d % 100 == dd
  {
    var q := y * 100 + m;
    assert d == q * 100 + dd;
    assert d / 100 == q && d % 100 == dd;
    assert q / 100 == y && q % 100 == m;
    assert d / 10000 == q / 100;
  }

  /** Reading back a formatted date gives the date again. */
  lemma {:induction false} ParseFormatDate(d: Date)
    ensures ParseDate(FormatDate(d)) == Some(d)
  {
    var s := FormatDate(d);
    SplitDate(d);
    assert Pow10(4) == 10000 && Pow10(2) == 100;
    assert s[..4] == Digits(d / 10000, 4);
    assert s[5..7] == Digits(d / 100 % 100, 2);
    assert s[8..] == Digits(d % 100, 2);
    DigitsValueOfDigits(d / 10000, 4);
    DigitsValueOfDigits(d / 100 % 100, 2);
    DigitsValueOfDigits(d % 100, 2);
  }

  /** Formatting the date a well-shaped string names gives the string back,
      so two strings name the same date exactly when they are equal. */
  lemma {:induction false} FormatParseDate(s: string)
    requires IsIsoDate(s)
    ensures ParseDate(s).Some? && FormatDate(ParseDate(s).value) == s
  {
    var ys, ms, ds := s[..4], s[5..7], s[8..];
    var y, m, dd := DigitsValue(ys), DigitsValue(ms), DigitsValue(ds);
    assert Pow10(4) == 10000 && Pow10(2) == 100;
    var d := ParseDate(s).value;
    assert d == y * 10000 + m * 100 + dd;
    FormatJoinedDate(d, y, m, dd);
    DigitsOfDigitsValue(ys);
    DigitsOfDigitsValue(ms);
    DigitsOfDigitsValue(ds);
    assert Digits(y, 4) == ys && Digits(m, 2) == ms && Digits(dd, 2) == ds;
    assert FormatDate(d) == ys + "-" + ms + "-" + ds;
    IsoDateSplits(s);
  }

  lemma IsoDateSplits(s: string)
    requires |s| == 10 && s[4] == '-' && s[7] == '-'
    ensures s == s[..4] + "-" + s[5..7] + "-" + s[8..]
  {
  }

  lemma FormatJoinedDate(d: Date, y: nat, m: nat, dd: nat)
    requires y < 10000 && m < 100 && dd < 100
    requires d == y * 10000 + m * 100 + dd
    ensures FormatDate(d) == Digits(y, 4) + "-" + Digits(m, 2) + "-" + Digits(dd, 2)
  {
    JoinDate(d, y, m, dd);
    assert FormatDate(d) == Digits(d / 10000, 4) + "-" + Digits(d / 100 % 100, 2) + "-" + Digits(d % 100, 2);
  }

  lemma ParseDateInjective(s: string, t: string)
    requires IsIsoDate(s) && IsIsoDate(t) && ParseDate(s) == ParseDate(t)
    ensures s == t
  {
    FormatParseDate(s);
    FormatParseDate(t);
  }
}
