/**
 * Civil (wall-clock) date-times in the single fixed local calendar the bot
 * uses, the two fixed-width text formats a user may type an event time in,
 * and a minute count that orders date-times the way Python compares naive
 * `datetime` values.
 */
module DateTime {
  import opened Common

  datatype Civil = Civil(year: int, month: int, day: int, hour: int, minute: int)

  /* ---------------------------------------------------------------------
   * The proleptic Gregorian calendar
   * ------------------------------------------------------------------- */

  predicate IsLeap(y: int)
  {
    y % 4 == 0 && (y % 100 != 0 || y % 400 == 0)
  }

  function YearLength(y: int): int
  {
    if IsLeap(y) then 366 else 365
  }

  function DaysInMonth(y: int, m: int): int
    requires 1 <= m <= 12
  {
    if m == 2 then (if IsLeap(y) then 29 else 28)
    else if m == 4 || m == 6 || m == 9 || m == 11 then 30
    else 31
  }

  /** A date-time `datetime` accepts: years 1..9999, real calendar days. */
  predicate Valid(c: Civil)
  {
    && 1 <= c.year <= 9999
    && 1 <= c.month <= 12
    && 1 <= c.day <= DaysInMonth(c.year, c.month)
    && 0 <= c.hour < 24
    && 0 <= c.minute < 60
  }

  /** Days in the years before `y`, counted from 1 January of year 1. */
  function DaysBeforeYear(y: int): int
    requires y >= 1
  {
    if y == 1 then 0 else DaysBeforeYear(y - 1) + YearLength(y - 1)
  }

  /** Days in the months of year `y` before month `m`. */
  function DaysBeforeMonth(y: int, m: int): int
    requires 1 <= m <= 12
  {
    var common := [0, 31, 59, 90, 120, 151, 181, 212, 243, 273, 304, 334][m - 1];
    if m > 2 && IsLeap(y) then common + 1 else common
  }

  /** Days elapsed from 1 January of year 1 to the date of `c`. */
  function DayNumber(c: Civil): int
    requires Valid(c)
  {
    DaysBeforeYear(c.year) + DaysBeforeMonth(c.year, c.month) + c.day - 1
  }

  /** Minutes elapsed from 1 January of year 1, 00:00, to `c`. */
  function ToMinutes(c: Civil): int
    requires Valid(c)
  {
    DayNumber(c) * 1440 + c.hour * 60 + c.minute
  }

  /** Python's ordering of naive date-times: field by field, largest first. */
  predicate Before(a: Civil, b: Civil)
  {
    || a.year < b.year
    || (a.year == b.year && a.month < b.month)
    || (a.year == b.year && a.month == b.month && a.day < b.day)
    || (a.year == b.year && a.month == b.month && a.day == b.day && a.hour < b.hour)
    || (a.year == b.year && a.month == b.month && a.day == b.day && a.hour == b.hour
        && a.minute < b.minute)
  }

  lemma MonthStep(y: int, m: int)
    requires 1 <= m <= 12
    ensures m < 12 ==> DaysBeforeMonth(y, m + 1) == DaysBeforeMonth(y, m) + DaysInMonth(y, m)
    ensures m == 12 ==> DaysBeforeMonth(y, m) + DaysInMonth(y, m) == YearLength(y)
  {
  }

  /** Every day of a valid date lies inside its year. */
  lemma DayWithinYear(c: Civil)
    requires Valid(c)
    ensures DaysBeforeYear(c.year) <= DayNumber(c) < DaysBeforeYear(c.year) + YearLength(c.year)
  {
    MonthStep(c.year, 12);
    MonthsBefore(c.year, c.month, 12);
  }

  /** Later months start at or after the end of earlier ones. */
  lemma {:induction false} MonthsBefore(y: int, m: int, m': int)
    requires 1 <= m <= m' <= 12
    ensures DaysBeforeMonth(y, m) + DaysInMonth(y, m) <= DaysBeforeMonth(y, m') + DaysInMonth(y, m')
    ensures m < m' ==> DaysBeforeMonth(y, m) + DaysInMonth(y, m) <= DaysBeforeMonth(y, m')
    decreases m' - m
  {
    if m < m' {
      MonthStep(y, m);
      MonthStep(y, m + 1);
      MonthsBefore(y, m + 1, m');
    }
  }

  /** Later years start at or after the end of earlier ones. */
  lemma {:induction false} YearsBefore(y: int, y': int)
    requires 1 <= y < y'
    ensures DaysBeforeYear(y) + YearLength(y) <= DaysBeforeYear(y')
    decreases y' - y
  {
    if y + 1 < y' {
      YearsBefore(y + 1, y');
    }
  }

  /** The minute count is strictly monotone in Python's date-time order, so
      comparing minute counts is comparing date-times. */
  lemma ToMinutesMonotone(a: Civil, b: Civil)
    requires Valid(a) && Valid(b) && Before(a, b)
    ensures ToMinutes(a) < ToMinutes(b)
  {
    if a.year < b.year {
      DayWithinYear(a);
      DayWithinYear(b);
      YearsBefore(a.year, b.year);
    } else if a.month < b.month {
      MonthsBefore(a.year, a.month, b.month);
    }
  }

  /** Distinct valid date-times have distinct minute counts, and the count
      orders them exactly as Python does. */
  lemma ToMinutesOrder(a: Civil, b: Civil)
    requires Valid(a) && Valid(b)
    ensures ToMinutes(a) < ToMinutes(b) <==> Before(a, b)
    ensures ToMinutes(a) == ToMinutes(b) <==> a == b
  {
    if Before(a, b) {
      ToMinutesMonotone(a, b);
    } else if Before(b, a) {
      ToMinutesMonotone(b, a);
    }
  }

  /* ---------------------------------------------------------------------
   * Decimal fields
   * ------------------------------------------------------------------- */

  function Pow10(w: nat): nat
  {
    if w == 0 then 1 else 10 * Pow10(w - 1)
  }

  predicate IsDigit(c: char)
  {
    '0' <= c <= '9'
  }

  /** The value of a string of decimal digits, or None if some character is
      not a digit. The empty string reads as 0. */
  function ReadNumber(s: string): (r: Option<nat>)
    decreases |s|
  {
    if |s| == 0 then Some(0)
    else if !IsDigit(s[|s| - 1]) then None
    else
      match ReadNumber(s[..|s| - 1])
      case None => None
      case Some(v) => Some(v * 10 + (s[|s| - 1] as int - '0' as int))
  }

  /** `n` written with exactly `w` digits, zero-padded on the left
      (`%02d`, `%04d`); only the low `w` digits are kept. */
  function Pad(n: nat, w: nat): (r: string)
    ensures |r| == w
    ensures forall i :: 0 <= i < w ==> IsDigit(r[i])
  {
    if w == 0 then "" else Pad(n / 10, w - 1) + [('0' as int + n % 10) as char]
  }

  /** Reading back a padded number gives the number, when it fits. */
  lemma {:induction false} ReadPad(n: nat, w: nat)
    requires n < Pow10(w)
    ensures ReadNumber(Pad(n, w)) == Some(n)
  {
    if w > 0 {
      var s := Pad(n, w);
      assert s[..w - 1] == Pad(n / 10, w - 1);
      ReadPad(n / 10, w - 1);
    }
  }

  /** A string of digits is the padded form of the number it reads as. */
  lemma {:induction false} PadRead(s: string, n: nat)
    requires ReadNumber(s) == Some(n)
    ensures Pad(n, |s|) == s && n < Pow10(|s|)
    decreases |s|
  {
    if |s| > 0 {
      var v :| ReadNumber(s[..|s| - 1]) == Some(v);
      PadRead(s[..|s| - 1], v);
      var d := s[|s| - 1] as int - '0' as int;
      assert n == v * 10 + d && 0 <= d < 10;
      assert n / 10 == v && n % 10 == d;
      assert s == s[..|s| - 1] + [s[|s| - 1]];
    }
  }

  /* ---------------------------------------------------------------------
   * The two accepted formats: `DD.MM.YYYY HH:MM` and `DD.MM.YYYY HH.MM`
   * ------------------------------------------------------------------- */

  /** Render `c` in the format whose time separator is `sep`. */
  function Format(c: Civil, sep: char): (r: string)
    requires Valid(c)
    ensures |r| == 16
  {
    Pad(c.day, 2) + "." + Pad(c.month, 2) + "." + Pad(c.year, 4) + " "
    + Pad(c.hour, 2) + [sep] + Pad(c.minute, 2)
  }

  /** `datetime.strptime` for one fixed-width format: the layout must match
      exactly and the fields must form a real date-time. */
  function ParseWith(t: string, sep: char): (r: Option<Civil>)
    ensures r.Some? ==> Valid(r.value)
  {
    if |t| != 16 || t[2] != '.' || t[5] != '.' || t[10] != ' ' || t[13] != sep then None
    else
      match (ReadNumber(t[0..2]), ReadNumber(t[3..5]), ReadNumber(t[6..10]),
             ReadNumber(t[11..13]), ReadNumber(t[14..16]))
      case (Some(d), Some(mo), Some(y), Some(h), Some(mi)) =>
        var c := Civil(y, mo, d, h, mi);
        if Valid(c) then Some(c) else None
      case _ => None
  }

  /** The handler's loop: the colon format first, then the dotted one. */
  function ParseEventTime(t: string): (r: Option<Civil>)
    ensures r.Some? ==> Valid(r.value)
    ensures r.Some? <==> ParseWith(t, ':').Some? || ParseWith(t, '.').Some?
  {
    var colon := ParseWith(t, ':');
    if colon.Some? then colon else ParseWith(t, '.')
  }

  /** Formatting then parsing gives back the same date-time. */
  lemma ParseFormat(c: Civil, sep: char)
    requires Valid(c) && (sep == ':' || sep == '.')
    ensures ParseWith(Format(c, sep), sep) == Some(c)
    ensures ParseEventTime(Format(c, sep)) == Some(c)
  {
    var t := Format(c, sep);
    assert t[0..2] == Pad(c.day, 2);
    assert t[3..5] == Pad(c.month, 2);
    assert t[6..10] == Pad(c.year, 4);
    assert t[11..13] == Pad(c.hour, 2);
    assert t[14..16] == Pad(c.minute, 2);
    ReadPad(c.day, 2);
    ReadPad(c.month, 2);
    ReadPad(c.year, 4);
    ReadPad(c.hour, 2);
    ReadPad(c.minute, 2);
  }

  /** Parsing accepts only canonical text: what it accepts is exactly the
      formatted form of the date-time it returns. */
  lemma FormatParse(t: string, sep: char)
    requires ParseWith(t, sep).Some?
    ensures Format(ParseWith(t, sep).value, sep) == t
  {
    var c := ParseWith(t, sep).value;
    PadRead(t[0..2], c.day);
    PadRead(t[3..5], c.month);
    PadRead(t[6..10], c.year);
    PadRead(t[11..13], c.hour);
    PadRead(t[14..16], c.minute);
    assert Format(c, sep) == t;
  }
}
