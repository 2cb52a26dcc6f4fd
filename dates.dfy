/**
 * Calendar dates as (year, month, day) triples. The form holds a date of
 * birth as a date value; the payload carries it as an ISO calendar-date
 * string written with the date-fns pattern `yyyy-MM-dd`, and edit mode reads
 * the listed patient's string back with `new Date(...)`.
 */
module Dates {
  import opened Wrappers
  import opened Text

  datatype Date = Date(year: nat, month: nat, day: nat)

  /** A month 1..12 and a day 1..31 (the day-of-month length is not checked). */
  predicate IsCalendarDate(d: Date) {
    1 <= d.month <= 12 && 1 <= d.day <= 31
  }

  /** `format(date, 'yyyy-MM-dd')`: zero-padded year (at least four digits), month and day. */
  function FormatDate(d: Date): (s: string)
    ensures d.year < 10000 && d.month < 100 && d.day < 100 ==>
              |s| == 10 && s[4] == '-' && s[7] == '-'
  {
    PadLeft(d.year, 4) + "-" + PadLeft(d.month, 2) + "-" + PadLeft(d.day, 2)
  }

  /**
   * The ISO date-only form `YYYY-MM-DD` that `new Date(s)` accepts; anything
   * else gives an invalid date, modelled as None.
   */
  function ParseDate(s: string): (r: Option<Date>)
    ensures r.Some? ==> IsCalendarDate(r.value) && r.value.year < 10000
    ensures r.Some? <==> |s| == 10 && s[4] == '-' && s[7] == '-'
                         && AllDigits(s[..4]) && AllDigits(s[5..7]) && AllDigits(s[8..])
                         && IsCalendarDate(Date(DigitsValue(s[..4]), DigitsValue(s[5..7]), DigitsValue(s[8..])))
  {
    if |s| == 10 && s[4] == '-' && s[7] == '-'
       && AllDigits(s[..4]) && AllDigits(s[5..7]) && AllDigits(s[8..])
    then
      var d := Date(DigitsValue(s[..4]), DigitsValue(s[5..7]), DigitsValue(s[8..]));
      if IsCalendarDate(d) then Some(d) else None
    else
      None
  }

  /** Formatting a date and reading the string back gives the same date. */
  lemma FormatThenParse(d: Date)
    requires IsCalendarDate(d) && d.year < 10000
    ensures ParseDate(FormatDate(d)) == Some(d)
  {
    var y, m, dd := PadLeft(d.year, 4), PadLeft(d.month, 2), PadLeft(d.day, 2);
    var s := FormatDate(d);
    assert s == y + "-" + m + "-" + dd;
    assert s[..4] == y && s[5..7] == m && s[8..] == dd;
  }

  /** A string the date parser accepts is exactly what formatting its date writes. */
  lemma ParseThenFormat(s: string)
    requires ParseDate(s).Some?
    ensures FormatDate(ParseDate(s).value) == s
  {
    var y, m, dd := s[..4], s[5..7], s[8..];
    PadLeftOfValue(y);
    PadLeftOfValue(m);
    PadLeftOfValue(dd);
    assert s == y + "-" + m + "-" + dd;
  }
}
