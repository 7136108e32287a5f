/**
 * The daily-recap throttle: the stored date of the last recap, how it is
 * written (`date.isoformat()`) and read back (`strptime(text.strip(), "%Y-%m-%d")`),
 * and the decision whether a recap is due today.
 */
module Throttle {
  import opened Wrappers
  import opened PyText

  /** A calendar date as Python's `datetime.date` holds it. */
  datatype Date = Date(year: int, month: int, day: int)

  predicate IsLeap(y: int)
  {
    y % 4 == 0 && (y % 100 != 0 || y % 400 == 0)
  }

  function DaysInMonth(y: int, m: int): int
    requires 1 <= m <= 12
  {
    if m == 2 then (if IsLeap(y) then 29 else 28)
    else if m == 4 || m == 6 || m == 9 || m == 11 then 30
    else 31
  }

  /** The dates `datetime.date` can represent (years 1 to 9999). */
  predicate ValidDate(d: Date)
  {
    1 <= d.year <= 9999 && 1 <= d.month <= 12 && 1 <= d.day <= DaysInMonth(d.year, d.month)
  }

  /** `a < b` on dates: chronological order. */
  predicate Before(a: Date, b: Date)
  {
    a.year < b.year
    || (a.year == b.year && a.month < b.month)
    || (a.year == b.year && a.month == b.month && a.day < b.day)
  }

  predicate IsDigit(c: char)
  {
    '0' <= c <= '9'
  }

  function DigitValue(c: char): int
    requires IsDigit(c)
  {
    c as int - '0' as int
  }

  function DigitChar(n: int): char
    requires 0 <= n <= 9
  {
    ('0' as int + n) as char
  }

  /** `"%02d" % n` for 0 <= n <= 99. */
  function Pad2(n: int): string
    requires 0 <= n <= 99
  {
    [DigitChar(n / 10), DigitChar(n % 10)]
  }

  /** `"%04d" % n` for 0 <= n <= 9999. */
  function Pad4(n: int): string
    requires 0 <= n <= 9999
  {
    [DigitChar(n / 1000), DigitChar(n / 100 % 10), DigitChar(n / 10 % 10), DigitChar(n % 10)]
  }

  /** `d.isoformat()`: `YYYY-MM-DD`. */
  function IsoFormat(d: Date): (s: string)
    requires ValidDate(d)
    ensures |s| == 10 && s[4] == '-' && s[7] == '-'
    ensures forall i :: 0 <= i < 10 && i != 4 && i != 7 ==> IsDigit(s[i])
  {
    Pad4(d.year) + "-" + Pad2(d.month) + "-" + Pad2(d.day)
  }

  /** The regular expression `%m` stands for, `1[0-2]|0[1-9]|[1-9]`, which must be
      followed by the literal `-` of the format: the month and the characters consumed. */
  function ParseMonth(r: string): Option<(int, int)>
  {
    if |r| >= 3 && r[0] == '1' && '0' <= r[1] <= '2' && r[2] == '-' then Some((10 + DigitValue(r[1]), 3))
    else if |r| >= 3 && r[0] == '0' && '1' <= r[1] <= '9' && r[2] == '-' then Some((DigitValue(r[1]), 3))
    else if |r| >= 2 && '1' <= r[0] <= '9' && r[1] == '-' then Some((DigitValue(r[0]), 2))
    else None
  }

  /** The regular expression `%d` stands for, `3[01]|[12]\d|0[1-9]|[1-9]| [1-9]`, first
      alternative that matches: the day and the characters consumed. */
  function ParseDay(r: string): Option<(int, int)>
  {
    if |r| >= 2 && r[0] == '3' && (r[1] == '0' || r[1] == '1') then Some((30 + DigitValue(r[1]), 2))
    else if |r| >= 2 && (r[0] == '1' || r[0] == '2') && IsDigit(r[1]) then Some((10 * DigitValue(r[0]) + DigitValue(r[1]), 2))
    else if |r| >= 2 && r[0] == '0' && '1' <= r[1] <= '9' then Some((DigitValue(r[1]), 2))
    else if |r| >= 1 && '1' <= r[0] <= '9' then Some((DigitValue(r[0]), 1))
    else if |r| >= 2 && r[0] == ' ' && '1' <= r[1] <= '9' then Some((DigitValue(r[1]), 2))
    else None
  }

  /** `datetime.strptime(s, "%Y-%m-%d").date()`, with `None` where it raises
      `ValueError`: no match, characters left over, or no such date. */
  function ParseDate(s: string): (r: Option<Date>)
    ensures r.Some? ==> ValidDate(r.value)
  {
    if |s| < 5 || !IsDigit(s[0]) || !IsDigit(s[1]) || !IsDigit(s[2]) || !IsDigit(s[3]) || s[4] != '-' then None
    else
      var y := 1000 * DigitValue(s[0]) + 100 * DigitValue(s[1]) + 10 * DigitValue(s[2]) + DigitValue(s[3]);
      match ParseMonth(s[5..])
      case None => None
      case Some((m, k)) =>
        match ParseDay(s[5 + k..])
        case None => None
        case Some((d, j)) =>
          if 5 + k + j != |s| || !ValidDate(Date(y, m, d)) then None else Some(Date(y, m, d))
  }

  /** `should_send_recap`: due when no date is stored, when the stored text does not
      parse, and otherwise exactly when today is later than the stored date.
      `stored` is the content of the recap file, `None` when the file does not exist. */
  function ShouldSendRecap(today: Date, stored: Option<string>): (due: bool)
    ensures stored.None? ==> due
    ensures !due <==> stored.Some? && ParseDate(Strip(stored.value)).Some?
                      && !Before(ParseDate(Strip(stored.value)).value, today)
  {
    match stored
    case None => true
    case Some(text) =>
      match ParseDate(Strip(text))
      case None => true
      case Some(last) => Before(last, today)
  }

  /** `update_last_recap_date`: the recap file afterwards holds today's ISO date. */
  function RecordRecap(today: Date): (stored: Option<string>)
    requires ValidDate(today)
    ensures stored.Some? && |stored.value| == 10
  {
    Some(IsoFormat(today))
  }

  lemma DigitRoundTrip(n: int)
    requires 0 <= n <= 9
    ensures IsDigit(DigitChar(n)) && DigitValue(DigitChar(n)) == n
  {
  }

  /** The four characters of `"%04d" % n` are digits that spell `n`. */
  lemma Pad4Value(n: int)
    requires 0 <= n <= 9999
    ensures var p := Pad4(n);
      IsDigit(p[0]) && IsDigit(p[1]) && IsDigit(p[2]) && IsDigit(p[3])
      && 1000 * DigitValue(p[0]) + 100 * DigitValue(p[1]) + 10 * DigitValue(p[2]) + DigitValue(p[3]) == n
  {
    var a, b, c, e := n / 1000, n / 100 % 10, n / 10 % 10, n % 10;
    DigitRoundTrip(a); DigitRoundTrip(b); DigitRoundTrip(c); DigitRoundTrip(e);
    var q1, q2 := n / 10, n / 100;
    assert n == 10 * q1 + e;
    assert q1 / 10 == q2;
    assert q1 == 10 * q2 + c;
    assert q2 / 10 == a;
    assert q2 == 10 * a + b;
  }

  /** `%m` reads back a zero-padded month followed by `-`. */
  lemma ParsePaddedMonth(m: int, rest: string)
    requires 1 <= m <= 12
    ensures ParseMonth(Pad2(m) + "-" + rest) == Some((m, 3))
  {
    DigitRoundTrip(m / 10); DigitRoundTrip(m % 10);
  }

  /** `%d` reads back a zero-padded day of a month. */
  lemma ParsePaddedDay(d: int)
    requires 1 <= d <= 31
    ensures ParseDay(Pad2(d)) == Some((d, 2))
  {
    DigitRoundTrip(d / 10); DigitRoundTrip(d % 10);
  }

  /** Reading back what `isoformat` wrote gives the same date. */
  lemma ParseIsoFormat(d: Date)
    requires ValidDate(d)
    ensures ParseDate(IsoFormat(d)) == Some(d)
  {
    var s := IsoFormat(d);
    Pad4Value(d.year);
    assert s[..4] == Pad4(d.year) && s[4] == '-';
    assert s[5..] == Pad2(d.month) + "-" + Pad2(d.day);
    ParsePaddedMonth(d.month, Pad2(d.day));
    assert s[8..] == Pad2(d.day);
    ParsePaddedDay(d.day);
  }

  /** An ISO date has no surrounding whitespace, so `strip()` leaves it alone. */
  lemma StripIsoFormat(d: Date)
    requires ValidDate(d)
    ensures Strip(IsoFormat(d)) == IsoFormat(d)
  {
    var s := IsoFormat(d);
    assert !IsSpace(s[0]) && !IsSpace(s[9]);
    assert TrimStart(s) == s;
    assert TrimEnd(s) == s;
  }

  /** After `update_last_recap_date` ran on `today`, a recap is due on `later`
      exactly when `later` is a later day. */
  lemma RecapDueAfterRecord(today: Date, later: Date)
    requires ValidDate(today)
    ensures ShouldSendRecap(later, RecordRecap(today)) <==> Before(today, later)
  {
    ReadBackIsoFormat(today);
    DueAfterParse(later, IsoFormat(today), today);
  }

  /** The recap file written on `d` reads back, through `strip()` and `strptime`, as `d`. */
  lemma ReadBackIsoFormat(d: Date)
    requires ValidDate(d)
    ensures ParseDate(Strip(IsoFormat(d))) == Some(d)
  {
    StripIsoFormat(d);
    ParseIsoFormat(d);
  }

  /** A file whose text parses as `last` makes a recap due exactly on days after `last`. */
  lemma DueAfterParse(today: Date, text: string, last: Date)
    requires ParseDate(Strip(text)) == Some(last)
    ensures ShouldSendRecap(today, Some(text)) <==> Before(last, today)
  {
  }

  /** In particular the recap is not due again on the day it was recorded. */
  lemma NoSecondRecapSameDay(today: Date)
    requires ValidDate(today)
    ensures !ShouldSendRecap(today, RecordRecap(today))
  {
    RecapDueAfterRecord(today, today);
  }
}
