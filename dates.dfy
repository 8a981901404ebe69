/** `pd.to_datetime(column, format="%Y-%m")`, restricted to that one format. */
module Dates {
  import opened Frames

  predicate IsDigit(ch: char) {
    '0' <= ch <= '9'
  }

  predicate AllDigits(s: string) {
    forall i :: 0 <= i < |s| ==> IsDigit(s[i])
  }

  function DigitOf(ch: char): nat
    requires IsDigit(ch)
  {
    (ch - '0') as nat
  }

  /** The decimal value of a run of digits. */
  function DigitsValue(s: string): nat
    requires AllDigits(s)
  {
    if s == [] then 0 else DigitsValue(s[..|s| - 1]) * 10 + DigitOf(s[|s| - 1])
  }

  /** "%Y-%m" as strptime reads it: exactly four year digits, a dash, and a
      month of one or two digits between 1 and 12, with nothing after it. */
  function ParseYearMonth(s: string): (r: Option<(nat, nat)>)
    ensures r.Some? ==> 1 <= r.value.1 <= 12
    ensures r.Some? ==> (|s| == 6 || |s| == 7) && s[4] == '-'
  {
    if (|s| == 6 || |s| == 7) && AllDigits(s[..4]) && s[4] == '-' && AllDigits(s[5..]) then
      var m := DigitsValue(s[5..]);
      if 1 <= m <= 12 then Some((DigitsValue(s[..4]), m)) else None
    else None
  }

  function Digit(d: nat): char
    requires d < 10
  {
    ('0' as int + d) as char
  }

  /** "%04d-%02d": the text a year and month are written as. */
  function FormatYearMonth(y: nat, m: nat): string
    requires y < 10000 && 1 <= m <= 12
  {
    [Digit(y / 1000), Digit(y / 100 % 10), Digit(y / 10 % 10), Digit(y % 10), '-', Digit(m / 10), Digit(m % 10)]
  }

  lemma DigitOfDigit(d: nat)
    requires d < 10
    ensures IsDigit(Digit(d)) && DigitOf(Digit(d)) == d
  {
  }

  /** The value of one or two digits. */
  lemma DigitsValue12(s: string)
    requires 1 <= |s| <= 2 && AllDigits(s)
    ensures DigitsValue(s) == if |s| == 1 then DigitOf(s[0]) else DigitOf(s[0]) * 10 + DigitOf(s[1])
  {
    assert s[..|s| - 1][..0] == [];
    if |s| == 2 {
      assert s[..1] == [s[0]];
    }
  }

  /** The value of four digits. */
  lemma DigitsValue4(s: string)
    requires |s| == 4 && AllDigits(s)
    ensures DigitsValue(s) == ((DigitOf(s[0]) * 10 + DigitOf(s[1])) * 10 + DigitOf(s[2])) * 10 + DigitOf(s[3])
  {
    assert s[..3][..2] == s[..2];
    DigitsValue12(s[..2]);
    assert DigitsValue(s[..3]) == DigitsValue(s[..2]) * 10 + DigitOf(s[2]);
  }

  /** The year digits of FormatYearMonth read back as the year. */
  lemma YearDigits(y: nat)
    requires y < 10000
    ensures var s := [Digit(y / 1000), Digit(y / 100 % 10), Digit(y / 10 % 10), Digit(y % 10)];
            AllDigits(s) && DigitsValue(s) == y
  {
    var s := [Digit(y / 1000), Digit(y / 100 % 10), Digit(y / 10 % 10), Digit(y % 10)];
    DigitOfDigit(y / 1000);
    DigitOfDigit(y / 100 % 10);
    DigitOfDigit(y / 10 % 10);
    DigitOfDigit(y % 10);
    DigitsValue4(s);
    assert y / 1000 * 10 + y / 100 % 10 == y / 100;
    assert y / 100 * 10 + y / 10 % 10 == y / 10;
    assert y / 10 * 10 + y % 10 == y;
  }

  /** A digit character is the digit of its value. */
  lemma DigitRoundTrip(ch: char)
    requires IsDigit(ch)
    ensures DigitOf(ch) < 10 && Digit(DigitOf(ch)) == ch
  {
  }

  /** Four digits read as a year split back into the same digits. */
  lemma SplitFour(a: nat, b: nat, c: nat, d: nat)
    requires a < 10 && b < 10 && c < 10 && d < 10
    ensures var y := ((a * 10 + b) * 10 + c) * 10 + d;
            y < 10000 && y / 1000 == a && y / 100 % 10 == b && y / 10 % 10 == c && y % 10 == d
  {
    var y := ((a * 10 + b) * 10 + c) * 10 + d;
    assert y == a * 1000 + b * 100 + c * 10 + d;
    assert y / 10 == a * 100 + b * 10 + c;
    assert y / 100 == a * 10 + b;
    assert y / 1000 == a;
  }

  /** The reverse of ParseFormat and ParseShortMonth: only a year and a
      month written out as "%04d-%02d", or with a one-digit month, parse. */
  lemma ParseOnlyWritten(s: string)
    requires ParseYearMonth(s).Some?
    ensures var (y, m) := ParseYearMonth(s).value;
            y < 10000 && 1 <= m <= 12 &&
            (s == FormatYearMonth(y, m) || (m <= 9 && s == FormatYearMonth(y, m)[..5] + [Digit(m)]))
  {
    var (y, m) := ParseYearMonth(s).value;
    var ys := s[..4];
    DigitsValue4(ys);
    DigitRoundTrip(s[0]);
    DigitRoundTrip(s[1]);
    DigitRoundTrip(s[2]);
    DigitRoundTrip(s[3]);
    SplitFour(DigitOf(s[0]), DigitOf(s[1]), DigitOf(s[2]), DigitOf(s[3]));
    var f := FormatYearMonth(y, m);
    assert f[..4] == s[..4];
    DigitsValue12(s[5..]);
    DigitRoundTrip(s[5]);
    if |s| == 7 {
      DigitRoundTrip(s[6]);
      var m0, m1 := DigitOf(s[5]), DigitOf(s[6]);
      assert m == m0 * 10 + m1;
      assert m / 10 == m0 && m % 10 == m1;
      assert s == f;
    } else {
      assert m == DigitOf(s[5]);
      assert s == f[..5] + [Digit(m)];
    }
  }

  /** Parsing a formatted year and month gives them back. */
  lemma ParseFormat(y: nat, m: nat)
    requires y < 10000 && 1 <= m <= 12
    ensures ParseYearMonth(FormatYearMonth(y, m)) == Some((y, m))
  {
    var s := FormatYearMonth(y, m);
    YearDigits(y);
    assert s[..4] == [Digit(y / 1000), Digit(y / 100 % 10), Digit(y / 10 % 10), Digit(y % 10)];
    DigitOfDigit(m / 10);
    DigitOfDigit(m % 10);
    DigitsValue12(s[5..]);
  }

  /** A one-digit month is accepted as well ("2023-5"). */
  lemma ParseShortMonth(y: nat, m: nat)
    requires y < 10000 && 1 <= m <= 9
    ensures ParseYearMonth(FormatYearMonth(y, m)[..5] + [Digit(m)]) == Some((y, m))
  {
    var s := FormatYearMonth(y, m)[..5] + [Digit(m)];
    YearDigits(y);
    assert s[..4] == [Digit(y / 1000), Digit(y / 100 % 10), Digit(y / 10 % 10), Digit(y % 10)];
    DigitOfDigit(m);
    assert s[5..] == [Digit(m)];
    DigitsValue12(s[5..]);
  }

  /** The strings `pd.to_datetime` reads as NaT instead of parsing them. */
  const NatStrings: set<string> := {"", "NaT", "nat", "NAT", "nan", "NaN", "NAN"}

  /** Whether the first day of the month lies within datetime64[ns], whose
      range runs from 1677-09-21 to 2262-04-11. */
  predicate InTimestampRange(y: int, m: int) {
    (y > 1677 || (y == 1677 && m >= 10)) && (y < 2262 || (y == 2262 && m <= 4))
  }

  /** One cell through `pd.to_datetime(..., format="%Y-%m")`. */
  function ToDatetime(c: Cell): (r: Result<Cell, Error>)
    ensures r.Success? ==> r.value.Date? || r.value.Missing?
    ensures r.Success? && r.value.Date? ==> 1 <= r.value.month <= 12 && InTimestampRange(r.value.year, r.value.month)
    ensures c.Missing? || (c.Text? && c.s in NatStrings) ==> r == Success(Missing)
    ensures c.Num? ==> r == Failure(DateParseError(c))
  {
    match c
    case Missing => Success(Missing)
    case Date(y, m) => if 1 <= m <= 12 && InTimestampRange(y, m) then Success(c) else Failure(OutOfBoundsDatetime(y, m))
    case Num(_) => Failure(DateParseError(c))
    case Text(s) =>
      if s in NatStrings then Success(Missing)
      else match ParseYearMonth(s)
        case None => Failure(DateParseError(c))
        case Some((y, m)) => if InTimestampRange(y, m) then Success(Date(y, m)) else Failure(OutOfBoundsDatetime(y, m))
  }

  /** A whole column through `pd.to_datetime`: all rows convert, or the
      call fails with the first failing row's error. */
  function ToDatetimeCells(cells: seq<Cell>): (r: Result<seq<Cell>, Error>)
    ensures r.Success? <==> forall i :: 0 <= i < |cells| ==> ToDatetime(cells[i]).Success?
    ensures r.Success? ==> |r.value| == |cells| && forall i :: 0 <= i < |cells| ==> ToDatetime(cells[i]) == Success(r.value[i])
    ensures r.Failure? ==> exists i :: 0 <= i < |cells| && ToDatetime(cells[i]) == Failure(r.error)
                                       && forall j :: 0 <= j < i ==> ToDatetime(cells[j]).Success?
  {
    if cells == [] then Success([])
    else match ToDatetime(cells[0])
      case Failure(e) => Failure(e)
      case Success(d) =>
        match ToDatetimeCells(cells[1..])
        case Failure(e) =>
          ghost var i :| 0 <= i < |cells[1..]| && ToDatetime(cells[1..][i]) == Failure(e)
                          && forall j :: 0 <= j < i ==> ToDatetime(cells[1..][j]).Success?;
          assert ToDatetime(cells[i + 1]) == Failure(e);
          Failure(e)
        case Success(ds) => Success([d] + ds)
  }

  /** Every year and month written as `YYYY-MM` inside the datetime64[ns]
      range converts to that date. */
  lemma ToDatetimeWritten(y: nat, m: nat)
    requires y < 10000 && 1 <= m <= 12 && InTimestampRange(y, m)
    ensures ToDatetime(Text(FormatYearMonth(y, m))) == Success(Date(y, m))
  {
    var s := FormatYearMonth(y, m);
    ParseFormat(y, m);
    assert s[4] == '-';
    assert |s| == 7;
    assert s !in NatStrings by {
      assert |s| != 0 && |s| != 3;
    }
  }

  /** Conversely, a text that converts to a date is that date written as
      `YYYY-MM`, or as `YYYY-M` for a one-digit month. */
  lemma ToDatetimeOnlyWritten(s: string)
    requires ToDatetime(Text(s)).Success? && ToDatetime(Text(s)).value.Date?
    ensures var d := ToDatetime(Text(s)).value;
            d.year < 10000 &&
            (s == FormatYearMonth(d.year, d.month) ||
             (d.month <= 9 && s == FormatYearMonth(d.year, d.month)[..5] + [Digit(d.month)]))
  {
    ParseOnlyWritten(s);
  }
}
