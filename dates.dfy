/** `formatDateForCard` (utils.js; script.js carries an identical copy): the
    date line of an entry card, such as "05 Mar 2024". */
module Dates {
  import opened Journal
  import opened Text

  /** `monthNames`, indexed by the 0-based month. */
  const MonthNames: seq<string> :=
    ["Jan", "Feb", "Mar", "Apr", "May", "Jun", "Jul", "Aug", "Sep", "Oct", "Nov", "Dec"]

  /** The day of the month as two digits: `getDate().toString().padStart(2, '0')`. */
  function DayText(day: DayOfMonth): (r: string)
    ensures |r| == 2 && IsDigit(r[0]) && IsDigit(r[1])
    ensures DigitsValue(r) == day
  {
    var digits := NatToString(day);
    var r := PadStart(digits, 2, '0');
    assert |r| == 2 && DigitsValue(r) == day by {
      if day < 10 {
        assert digits == [DigitChar(day)];
        assert r == ['0', DigitChar(day)];
        assert r[..1] == ['0'] && ['0'][..0] == [];
        assert DigitsValue(r[..1]) == 0;
        assert DigitValue(r[1]) == day;
      } else {
        assert NatToString(day / 10) == [DigitChar(day / 10)];
        assert digits == [DigitChar(day / 10)] + [DigitChar(day % 10)];
        assert r == digits;
        NatToStringRoundTrip(day);
      }
    }
    r
  }

  /** `formatDateForCard(isoString)`: an empty input gives the empty string;
      an input the date parser rejects comes back unchanged; a valid date
      gives `day month year` with the two-digit day, the month's three-letter
      name and the full year, separated by single spaces. */
  function FormatDateForCard(isoString: string, parse: DateParser): (r: string)
    ensures isoString == "" ==> r == ""
    ensures isoString != "" && parse(isoString).Invalid? ==> r == isoString
    ensures isoString != "" && parse(isoString).Valid? ==>
              var d := parse(isoString).on;
              && |r| >= 8
              && IsDigit(r[0]) && IsDigit(r[1]) && DigitsValue(r[..2]) == d.day
              && r[2] == ' '
              && r[3..6] == MonthNames[d.month]
              && r[6] == ' '
              && r[7..] == IntToString(d.year)
  {
    if isoString == "" then ""
    else
      match parse(isoString)
      case Invalid => isoString
      case Valid(d, _) =>
        var day := DayText(d.day);
        var month := MonthNames[d.month];
        var year := IntToString(d.year);
        MonthNameLength(d.month);
        var r := day + " " + month + " " + year;
        assert r[..2] == day && r[2] == ' ';
        assert r[3..6] == month && r[6] == ' ';
        assert r[7..] == year;
        r
  }

  /** The card text loses nothing of a valid date: two valid dates that
      format alike fall on the same calendar day. */
  lemma FormatKeepsCalendarDate(a: string, b: string, parse: DateParser)
    requires a != "" && b != "" && parse(a).Valid? && parse(b).Valid?
    requires FormatDateForCard(a, parse) == FormatDateForCard(b, parse)
    ensures parse(a).on == parse(b).on
  {
    var ra := FormatDateForCard(a, parse);
    var da := parse(a).on;
    var db := parse(b).on;
    assert DigitsValue(ra[..2]) == da.day == db.day;
    assert ra[3..6] == MonthNames[da.month] && ra[3..6] == MonthNames[db.month];
    MonthNamesDistinct(da.month, db.month);
    assert IntToString(da.year) == ra[7..] == IntToString(db.year);
    IntToStringInjective(da.year, db.year);
  }

  lemma MonthNameLength(m: Month)
    ensures |MonthNames[m]| == 3
  {
  }

  lemma MonthNamesDistinct(i: Month, j: Month)
    requires MonthNames[i] == MonthNames[j]
    ensures i == j
  {
  }
}
