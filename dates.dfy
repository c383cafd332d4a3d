/** The two date conversions of the scraper: `strptime` with `'%Y-%m-%d'` (birth date) and with
    `'%b / %d / %Y'` (last fight), each followed by `isoformat()` of the resulting midnight datetime.
    Only canonical, zero-padded spellings are accepted; the calendar check is Python's `datetime` one. */
module Dates {
  import opened Wrappers
  import opened Text

  datatype Date = Date(year: nat, month: nat, day: nat)

  /** Gregorian leap years, as Python's `calendar.isleap`. */
  predicate IsLeapYear(year: nat)
  {
    year % 4 == 0 && (year % 100 != 0 || year % 400 == 0)
  }

  function DaysInMonth(year: nat, month: nat): (n: nat)
    requires 1 <= month <= 12
    ensures 28 <= n <= 31
    ensures n == 29 <==> month == 2 && IsLeapYear(year)
  {
    if month == 2 then (if IsLeapYear(year) then 29 else 28)
    else if month == 4 || month == 6 || month == 9 || month == 11 then 30
    else 31
  }

  /** What `datetime(year, month, day)` accepts: years 1 to 9999, and a day that exists in that month. */
  predicate ValidDate(d: Date)
  {
    1 <= d.year <= 9999 && 1 <= d.month <= 12 && 1 <= d.day <= DaysInMonth(d.year, d.month)
  }

  // ---------------------------------------------------------------- YYYY-MM-DD

  function FormatIsoDate(d: Date): (s: string)
    requires ValidDate(d)
    ensures |s| == 10
  {
    Padded(d.year, 4) + "-" + Padded(d.month, 2) + "-" + Padded(d.day, 2)
  }

  /** `isoformat()` of the date at midnight with no microseconds. */
  function IsoFormat(d: Date): (s: string)
    requires ValidDate(d)
    ensures |s| == 19 && s[10..] == "T00:00:00"
  {
    FormatIsoDate(d) + "T00:00:00"
  }

  /** `strptime(s, '%Y-%m-%d')` on canonical input; `None` stands for the `ValueError`. */
  function ParseIsoDate(s: string): (r: Option<Date>)
    ensures r.Some? ==> ValidDate(r.value)
  {
    if |s| == 10 && s[4] == '-' && s[7] == '-'
       && AllDigits(s[..4]) && AllDigits(s[5..7]) && AllDigits(s[8..])
    then
      var d := Date(DigitsValue(s[..4]), DigitsValue(s[5..7]), DigitsValue(s[8..]));
      if ValidDate(d) then Some(d) else None
    else None
  }

  lemma IsoDateRoundTrip(d: Date)
    requires ValidDate(d)
    ensures ParseIsoDate(FormatIsoDate(d)) == Some(d)
  {
    var s := FormatIsoDate(d);
    assert s[..4] == Padded(d.year, 4);
    assert s[5..7] == Padded(d.month, 2);
    assert s[8..] == Padded(d.day, 2);
    PaddedValue(d.year, 4);
    PaddedValue(d.month, 2);
    PaddedValue(d.day, 2);
  }

  /** A birth date that parses is rendered back digit for digit, with the midnight time appended. */
  lemma IsoDateCanonical(s: string)
    requires ParseIsoDate(s).Some?
    ensures FormatIsoDate(ParseIsoDate(s).value) == s
    ensures IsoFormat(ParseIsoDate(s).value) == s + "T00:00:00"
  {
    ValuePadded(s[..4]);
    ValuePadded(s[5..7]);
    ValuePadded(s[8..]);
    assert s == s[..4] + "-" + s[5..7] + "-" + s[8..];
  }

  /** The strings the birth-date parser accepts are exactly the renderings of valid dates. */
  lemma IsoDateAccepts(s: string)
    ensures ParseIsoDate(s).Some? <==> exists d :: ValidDate(d) && FormatIsoDate(d) == s
  {
    if ParseIsoDate(s).Some? {
      IsoDateCanonical(s);
    }
    if exists d :: ValidDate(d) && FormatIsoDate(d) == s {
      var d :| ValidDate(d) && FormatIsoDate(d) == s;
      IsoDateRoundTrip(d);
    }
  }

  // ---------------------------------------------------------------- Mon / DD / YYYY

  /** The C locale's abbreviated month names, which `%b` matches ignoring case. */
  const MONTH_ABBREVIATIONS: seq<string> :=
    ["Jan", "Feb", "Mar", "Apr", "May", "Jun", "Jul", "Aug", "Sep", "Oct", "Nov", "Dec"]

  /** The first month, counting from `i + 1`, whose lower-cased name in `names` is `key`. */
  function MonthFrom(key: string, names: seq<string>, i: nat): (m: Option<nat>)
    requires i <= |names|
    ensures m.Some? ==> i < m.value <= |names| && key == Lower(names[m.value - 1])
    ensures m.Some? ==> forall j :: i <= j < m.value - 1 ==> key != Lower(names[j])
    ensures m.None? ==> forall j :: i <= j < |names| ==> key != Lower(names[j])
    decreases |names| - i
  {
    if i == |names| then None
    else if key == Lower(names[i]) then Some(i + 1)
    else MonthFrom(key, names, i + 1)
  }

  /** The month number `%b` reads from an abbreviation, compared case-insensitively. */
  function MonthNumber(abbrev: string): (m: Option<nat>)
    ensures m.Some? ==> 1 <= m.value <= 12 && Lower(abbrev) == Lower(MONTH_ABBREVIATIONS[m.value - 1])
    ensures m.None? ==> forall j :: 0 <= j < 12 ==> Lower(abbrev) != Lower(MONTH_ABBREVIATIONS[j])
  {
    MonthFrom(Lower(abbrev), MONTH_ABBREVIATIONS, 0)
  }

  lemma AbbreviationsDistinct()
    ensures forall i, j :: 0 <= i < j < 12 ==> Lower(MONTH_ABBREVIATIONS[i]) != Lower(MONTH_ABBREVIATIONS[j])
  {
    forall i, j | 0 <= i < j < 12
      ensures Lower(MONTH_ABBREVIATIONS[i]) != Lower(MONTH_ABBREVIATIONS[j])
    {
      var a, b := MONTH_ABBREVIATIONS[i], MONTH_ABBREVIATIONS[j];
      assert LowerChar(a[0]) != LowerChar(b[0]) || LowerChar(a[1]) != LowerChar(b[1])
          || LowerChar(a[2]) != LowerChar(b[2]);
    }
  }

  lemma MonthNumberOfAbbreviation(m: nat)
    requires 1 <= m <= 12
    ensures MonthNumber(MONTH_ABBREVIATIONS[m - 1]) == Some(m)
  {
    var a := MONTH_ABBREVIATIONS[m - 1];
    var r := MonthNumber(a);
    assert r.Some?;
    AbbreviationsDistinct();
    assert r.value == m;
  }

  function FormatLastFight(d: Date): (s: string)
    requires ValidDate(d)
    ensures |s| == 15
  {
    MONTH_ABBREVIATIONS[d.month - 1] + " / " + Padded(d.day, 2) + " / " + Padded(d.year, 4)
  }

  /** `strptime(s, '%b / %d / %Y')` on canonical input; `None` stands for the `ValueError`. */
  function ParseLastFight(s: string): (r: Option<Date>)
    ensures r.Some? ==> ValidDate(r.value)
  {
    if |s| == 15 && s[3..6] == " / " && s[8..11] == " / " && AllDigits(s[6..8]) && AllDigits(s[11..]) then
      match MonthNumber(s[..3])
      case None => None
      case Some(month) =>
        var d := Date(DigitsValue(s[11..]), month, DigitsValue(s[6..8]));
        if ValidDate(d) then Some(d) else None
    else None
  }

  lemma LastFightRoundTrip(d: Date)
    requires ValidDate(d)
    ensures ParseLastFight(FormatLastFight(d)) == Some(d)
  {
    var s := FormatLastFight(d);
    assert |MONTH_ABBREVIATIONS[d.month - 1]| == 3;
    assert s[..3] == MONTH_ABBREVIATIONS[d.month - 1];
    assert s[3..6] == " / " && s[8..11] == " / ";
    assert s[6..8] == Padded(d.day, 2);
    assert s[11..] == Padded(d.year, 4);
    MonthNumberOfAbbreviation(d.month);
    PaddedValue(d.day, 2);
    PaddedValue(d.year, 4);
  }

  /** What a successful parse of a last-fight string has read from which characters. */
  lemma LastFightShape(s: string)
    requires ParseLastFight(s).Some?
    ensures |s| == 15 && s[3..6] == " / " && s[8..11] == " / " && AllDigits(s[6..8]) && AllDigits(s[11..])
    ensures MonthNumber(s[..3]).Some?
    ensures ParseLastFight(s).value == Date(DigitsValue(s[11..]), MonthNumber(s[..3]).value, DigitsValue(s[6..8]))
  {
  }

  lemma LastFightFields(s: string)
    requires |s| == 15
    ensures s[3..] == s[3..6] + s[6..8] + s[8..11] + s[11..]
  {
  }

  /** A last-fight string that parses is the canonical rendering of its date, up to the case of the month. */
  lemma LastFightCanonical(s: string)
    requires ParseLastFight(s).Some?
    ensures s[3..] == FormatLastFight(ParseLastFight(s).value)[3..]
    ensures Lower(s[..3]) == Lower(FormatLastFight(ParseLastFight(s).value)[..3])
  {
    var d := ParseLastFight(s).value;
    LastFightShape(s);
    LastFightDigits(s, d);
    FormatLastFightFields(d);
  }

  lemma FormatLastFightFields(d: Date)
    requires ValidDate(d)
    ensures FormatLastFight(d)[..3] == MONTH_ABBREVIATIONS[d.month - 1]
    ensures FormatLastFight(d)[3..] == " / " + Padded(d.day, 2) + " / " + Padded(d.year, 4)
  {
    assert |MONTH_ABBREVIATIONS[d.month - 1]| == 3;
  }

  lemma LastFightDigits(s: string, d: Date)
    requires |s| == 15 && s[3..6] == " / " && s[8..11] == " / " && AllDigits(s[6..8]) && AllDigits(s[11..])
    requires d.day == DigitsValue(s[6..8]) && d.year == DigitsValue(s[11..])
    ensures s[3..] == " / " + Padded(d.day, 2) + " / " + Padded(d.year, 4)
  {
    ValuePadded(s[6..8]);
    ValuePadded(s[11..]);
    LastFightFields(s);
  }

  /** The ISO rendering of a last fight carries the year and day digits over verbatim and
      replaces the month abbreviation by its two-digit number. */
  lemma LastFightIso(s: string)
    requires ParseLastFight(s).Some?
    ensures IsoFormat(ParseLastFight(s).value)
         == s[11..] + "-" + Padded(ParseLastFight(s).value.month, 2) + "-" + s[6..8] + "T00:00:00"
  {
    LastFightShape(s);
    ValuePadded(s[6..8]);
    ValuePadded(s[11..]);
  }

  // ---------------------------------------------------------------- worked examples

  lemma Padded1990() ensures Padded(1990, 4) == "1990" {
    assert Padded(1, 1) == "1";
    assert Padded(19, 2) == "19";
    assert Padded(199, 3) == "199";
  }

  lemma Padded2015() ensures Padded(2015, 4) == "2015" {
    assert Padded(2, 1) == "2";
    assert Padded(20, 2) == "20";
    assert Padded(201, 3) == "201";
  }

  lemma PaddedTwoDigits()
    ensures Padded(1, 2) == "01" && Padded(2, 2) == "02" && Padded(5, 2) == "05" && Padded(12, 2) == "12"
  {
    assert Padded(0, 1) == "0" && Padded(1, 1) == "1";
  }

  /** The ISO rendering of a date from the padded spellings of its fields. */
  lemma IsoFormatOfFields(d: Date, year: string, month: string, day: string)
    requires ValidDate(d)
    requires Padded(d.year, 4) == year && Padded(d.month, 2) == month && Padded(d.day, 2) == day
    ensures FormatIsoDate(d) == year + "-" + month + "-" + day
    ensures IsoFormat(d) == year + "-" + month + "-" + day + "T00:00:00"
  {
  }

  /** The birth date 1990-05-12 is read as that date ... */
  lemma BirthDateParses()
    ensures ParseIsoDate("1990-05-12") == Some(Date(1990, 5, 12))
  {
    Padded1990();
    PaddedTwoDigits();
    IsoFormatOfFields(Date(1990, 5, 12), "1990", "05", "12");
    assert "1990" + "-" + "05" + "-" + "12" == "1990-05-12";
    IsoDateRoundTrip(Date(1990, 5, 12));
  }

  /** ... and comes out as 1990-05-12T00:00:00. */
  lemma BirthDateRenders()
    ensures IsoFormat(Date(1990, 5, 12)) == "1990-05-12T00:00:00"
  {
    Padded1990();
    PaddedTwoDigits();
    IsoFormatOfFields(Date(1990, 5, 12), "1990", "05", "12");
    assert "1990" + "-" + "05" + "-" + "12" + "T00:00:00" == "1990-05-12T00:00:00";
  }

  /** The last fight "Jan / 02 / 2015" is the date 2015-01-02 ... */
  lemma LastFightParses()
    ensures ParseLastFight("Jan / 02 / 2015") == Some(Date(2015, 1, 2))
  {
    Padded2015();
    PaddedTwoDigits();
    assert FormatLastFight(Date(2015, 1, 2)) == "Jan / 02 / 2015";
    LastFightRoundTrip(Date(2015, 1, 2));
  }

  /** ... and comes out as 2015-01-02T00:00:00. */
  lemma LastFightRenders()
    ensures IsoFormat(Date(2015, 1, 2)) == "2015-01-02T00:00:00"
  {
    Padded2015();
    PaddedTwoDigits();
    IsoFormatOfFields(Date(2015, 1, 2), "2015", "01", "02");
    assert "2015" + "-" + "01" + "-" + "02" + "T00:00:00" == "2015-01-02T00:00:00";
  }

  /** The 29th of February exists in leap years only, centuries counting only when divisible by 400. */
  lemma LeapDayExamples()
    ensures ValidDate(Date(2016, 2, 29)) && ValidDate(Date(2000, 2, 29))
    ensures !ValidDate(Date(2015, 2, 29)) && !ValidDate(Date(1900, 2, 29))
    ensures !ValidDate(Date(2015, 4, 31)) && !ValidDate(Date(0, 1, 1))
  {
  }
}
