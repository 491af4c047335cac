/** Competence-month parsing. A month key is accepted in the numeric form
    `MM/YYYY` (Python's `strptime(s, "%m/%Y")`) or, failing that, as a
    Portuguese month abbreviation and a two-digit year (`jan/25`). */
module DateParser {
  import opened Common
  import opened Text

  /** The month `datetime(year, month, 1)` denotes. */
  datatype YearMonth = YearMonth(year: int, month: int)

  /** Chronological position of a month; a larger index is a later month. */
  function MonthIndex(d: YearMonth): int
  {
    d.year * 12 + d.month - 1
  }

  /** What `%m` accepts: one digit 1-9 or two digits 01-12. */
  predicate MonthField(m: string)
  {
    && 1 <= |m| <= 2
    && AllDigits(m)
    && (|m| == 2 || m[0] != '0')
    && 1 <= DecimalValue(m) <= 12
  }

  /** `datetime.strptime(s, "%m/%Y")`: a month field, a slash and exactly
      four year digits fill the whole text; year 0 is out of `datetime`'s range. */
  function ParseNumeric(s: string): (r: Option<YearMonth>)
    ensures r.Some? ==> 1 <= r.value.month <= 12 && 1 <= r.value.year <= 9999
  {
    if |s| >= 5 && s[|s| - 5] == '/' && MonthField(s[..|s| - 5])
       && AllDigits(s[|s| - 4..]) && DecimalValue(s[|s| - 4..]) >= 1
    then
      assert DecimalValue(s[|s| - 4..]) < 10000 by {
        DecimalBound(s[|s| - 4..]);
        assert Pow10(4) == 10000;
      }
      Some(YearMonth(DecimalValue(s[|s| - 4..]), DecimalValue(s[..|s| - 5])))
    else
      None
  }

  lemma {:induction false} DecimalBound(s: string)
    requires AllDigits(s)
    ensures DecimalValue(s) < Pow10(|s|)
    decreases |s|
  {
    if |s| > 0 {
      DecimalBound(s[..|s| - 1]);
    }
  }

  /** The abbreviation table, January first. */
  function MonthAbbreviation(month: int): string
    requires 1 <= month <= 12
  {
    ["jan", "fev", "mar", "abr", "mai", "jun", "jul", "ago", "set", "out", "nov", "dez"][month - 1]
  }

  /** `months[abbr]`: the month number of a (lower-case) abbreviation. */
  function AbbreviationMonth(abbr: string): Option<int>
  {
    if abbr == "jan" then Some(1)
    else if abbr == "fev" then Some(2)
    else if abbr == "mar" then Some(3)
    else if abbr == "abr" then Some(4)
    else if abbr == "mai" then Some(5)
    else if abbr == "jun" then Some(6)
    else if abbr == "jul" then Some(7)
    else if abbr == "ago" then Some(8)
    else if abbr == "set" then Some(9)
    else if abbr == "out" then Some(10)
    else if abbr == "nov" then Some(11)
    else if abbr == "dez" then Some(12)
    else None
  }

  /** The table is a bijection between the twelve abbreviations and the months 1-12. */
  lemma AbbreviationTableIsBijective(abbr: string, month: int)
    requires 1 <= month <= 12
    ensures AbbreviationMonth(MonthAbbreviation(month)) == Some(month)
    ensures AbbreviationMonth(abbr) == Some(month) <==> abbr == MonthAbbreviation(month)
  {
  }

  /** The fallback: `abbr, year = s.split("/")` must give exactly two
      pieces, the abbreviation is looked up after `lower()`, and
      `"20" + year` must be a four-digit year, so the year has two digits. */
  function ParseAbbreviated(s: string): (r: Option<YearMonth>)
    ensures r.Some? ==> 1 <= r.value.month <= 12 && 2000 <= r.value.year <= 2099
  {
    if Occurrences(s, '/') != 1 then
      None
    else
      SplitCount(s, '/');
      var pieces := Split(s, '/');
      var year := pieces[1];
      match AbbreviationMonth(Lower(pieces[0]))
      case None => None
      case Some(month) =>
        if |year| == 2 && AllDigits(year) then
          assert DecimalValue(year) < 100 by { DecimalBound(year); }
          Some(YearMonth(2000 + DecimalValue(year), month))
        else
          None
  }

  /** `DateParser.parse`: the numeric form first, then the abbreviated
      one; `None` stands for the `ValueError` it raises otherwise. */
  function Parse(s: string): (r: Option<YearMonth>)
    ensures r.Some? ==> 1 <= r.value.month <= 12
  {
    match ParseNumeric(s)
    case Some(d) => Some(d)
    case None => ParseAbbreviated(s)
  }

  /** The two forms never both apply, so trying the numeric one first
      decides nothing: a numeric key has no letters where an abbreviated
      key has its month. */
  lemma FormsAreExclusive(s: string)
    ensures !(ParseNumeric(s).Some? && ParseAbbreviated(s).Some?)
  {
    if ParseNumeric(s).Some? && Occurrences(s, '/') == 1 {
      var a := s[..|s| - 5];
      var b := s[|s| - 4..];
      assert s == a + ['/'] + b;
      assert '/' !in a;
      assert '/' !in b;
      SplitAtOnlySeparator(a, '/', b);
      assert Lower(a) == a;
      assert IsDigit(a[0]);
      assert AbbreviationMonth(a).None?;
    }
  }

  /** Writing a month as `MM/YYYY` and parsing it gives the month back. */
  lemma NumericRoundTrip(year: nat, month: nat)
    requires 1 <= month <= 12 && 1 <= year <= 9999
    ensures Parse(Digits(month, 2) + "/" + Digits(year, 4)) == Some(YearMonth(year, month))
  {
    var s := Digits(month, 2) + "/" + Digits(year, 4);
    assert s[..|s| - 5] == Digits(month, 2);
    assert s[|s| - 4..] == Digits(year, 4);
  }

  /** An abbreviated key is never a numeric one. */
  lemma AbbreviatedIsNotNumeric(abbr: string, year: string)
    requires |abbr| == 3 && '/' !in abbr && |year| == 2
    ensures ParseNumeric(abbr + "/" + year).None?
  {
    var s := abbr + "/" + year;
    assert s[|s| - 5] == abbr[1];
  }

  /** An abbreviated key has exactly one slash, separating its two parts. */
  lemma AbbreviatedPieces(abbr: string, year: string)
    requires '/' !in abbr && '/' !in year
    ensures Occurrences(abbr + "/" + year, '/') == 1
    ensures Split(abbr + "/" + year, '/') == [abbr, year]
  {
    NoOccurrences(abbr, '/');
    NoOccurrences(year, '/');
    OccurrencesAppend(abbr, "/", '/');
    OccurrencesAppend(abbr + "/", year, '/');
    SplitAtOnlySeparator(abbr, '/', year);
  }

  /** Writing a month of 2000-2099 as `mmm/YY` and parsing it gives the month back. */
  lemma AbbreviatedRoundTrip(yy: nat, month: nat)
    requires 1 <= month <= 12 && yy < 100
    ensures Parse(MonthAbbreviation(month) + "/" + Digits(yy, 2)) == Some(YearMonth(2000 + yy, month))
  {
    var abbr := MonthAbbreviation(month);
    var year := Digits(yy, 2);
    AbbreviatedIsNotNumeric(abbr, year);
    AbbreviatedPieces(abbr, year);
    assert Lower(abbr) == abbr;
  }

  /** The numeric example of the repository's tests. */
  lemma NumericExample(s: string)
    requires s == "01/2025"
    ensures Parse(s) == Some(YearMonth(2025, 1))
  {
    var month, year := s[..2], s[3..];
    assert month == "01" && year == "2025";
    assert DecimalValue(month) == 1 by {
      assert month[..1] == "0" && "0"[..0] == "";
      assert DecimalValue("0") == 0;
    }
    assert DecimalValue(year) == 2025 by {
      assert year[..3] == "202" && "202"[..2] == "20" && "20"[..1] == "2" && "2"[..0] == "";
      assert DecimalValue("2") == 2;
      assert DecimalValue("20") == 20;
      assert DecimalValue("202") == 202;
    }
  }

  /** The abbreviated example of the repository's tests. */
  lemma AbbreviatedExample(s: string)
    requires s == "jan/25"
    ensures Parse(s) == Some(YearMonth(2025, 1))
  {
    AbbreviatedRoundTrip(25, 1);
    TwentyFive();
    assert MonthAbbreviation(1) == "jan";
    assert MonthAbbreviation(1) + "/" + Digits(25, 2) == s;
  }

  lemma TwentyFive()
    ensures Digits(25, 2) == "25"
  {
    assert Digits(2, 1) == Digits(0, 0) + [DigitChar(2)];
    assert Digits(25, 2) == Digits(2, 1) + [DigitChar(5)];
  }

  /** A text with neither a numeric month nor a known abbreviation is rejected. */
  lemma InvalidExample(s: string)
    requires s == "invalid/date"
    ensures Parse(s) == None
  {
    var a := "invalid";
    var b := "date";
    assert s == a + ['/'] + b;
    SplitAtOnlySeparator(a, '/', b);
  }

  /** `format_yyyymm_to_mm_yyyy`. The establishment resolver calls it, but
      `DateParser` (src/utils/date_parser.py) defines no such method; the
      contract follows the helper's tests: six digits `YYYYMM` with a month
      01-12 become `MM/YYYY`, anything else is a `ValueError` (`None`). */
  function FormatYyyymm(s: string): (r: Option<string>)
    ensures r.Some? <==> |s| == 6 && AllDigits(s) && 1 <= DecimalValue(s[4..]) <= 12
    ensures r.Some? ==> |r.value| == 7 && r.value[2] == '/'
  {
    if |s| == 6 && AllDigits(s) && 1 <= DecimalValue(s[4..]) <= 12 then Some(s[4..] + "/" + s[..4]) else None
  }

  /** A converted key parses back to the month it was converted from. */
  lemma FormatYyyymmParses(s: string)
    requires FormatYyyymm(s).Some? && DecimalValue(s[..4]) >= 1
    ensures Parse(FormatYyyymm(s).value) == Some(YearMonth(DecimalValue(s[..4]), DecimalValue(s[4..])))
  {
    var r := FormatYyyymm(s).value;
    assert r[..|r| - 5] == s[4..];
    assert r[|r| - 4..] == s[..4];
  }

  /** The examples of the helper's tests. */
  lemma FormatYyyymmExamples()
    ensures FormatYyyymm("202501") == Some("01/2025")
    ensures FormatYyyymm("2025") == None
    ensures FormatYyyymm("202513") == None
  {
    var s := "202501";
    assert AllDigits(s);
    assert s[4..] == "01" && s[..4] == "2025";
    assert DecimalValue("01") == 1;
    assert "01" + "/" + "2025" == "01/2025";
    var t := "202513";
    assert t[4..] == "13";
    assert DecimalValue("13") == 13;
  }
}
