/**
 * Calendar date-times as the collectors handle them: parsed by `strptime`,
 * `fromisoformat` or `pd.to_datetime` (kept abstract, as a parser function),
 * compared, and rendered back with `strftime`.
 */
module Dates {
  import opened Wrappers
  import opened Text

  /**
   * A `datetime`. `aware` is whether it carries a UTC offset; the collectors
   * render every date-time without converting it, so the offset itself plays
   * no part.
   */
  datatype DateTime = DateTime(year: nat, month: nat, day: nat, hour: nat, minute: nat, second: nat, aware: bool)
  {
    predicate WellFormed()
    {
      1 <= year <= 9999 && 1 <= month <= 12 && 1 <= day <= 31 && hour < 24 && minute < 60 && second < 60
    }

    /** `strftime('%Y%m%d')`. */
    function Compact(): string
      requires WellFormed()
    {
      NatStr(year) + Pad2(month) + Pad2(day)
    }

    /** `strftime('%Y-%m-%d')`. */
    function DateText(): string
      requires WellFormed()
    {
      NatStr(year) + "-" + Pad2(month) + "-" + Pad2(day)
    }

    /** `strftime('%H:%M:%S')`. */
    function TimeText(): string
      requires WellFormed()
    {
      Pad2(hour) + ":" + Pad2(minute) + ":" + Pad2(second)
    }

    /** `strftime('%Y-%m-%dT%H:%M:%SZ')`: the stored `match_datetime_utc` text. */
    function IsoZ(): string
      requires WellFormed()
    {
      DateText() + "T" + TimeText() + "Z"
    }

    /** `strftime('%Y-%m-%d %H:%M:%S')`. */
    function SqlText(): string
      requires WellFormed()
    {
      DateText() + " " + TimeText()
    }

    /** The same calendar day at midnight: what a date-only format parses to. */
    function Midnight(): (d: DateTime)
      ensures WellFormed() ==> d.WellFormed()
    {
      this.(hour := 0, minute := 0, second := 0)
    }

    /** The chronological key of a date-time, in seconds of a proleptic 31-day-month calendar. */
    function Ordinal(): int
    {
      ((((year * 12 + month) * 31 + day) * 24 + hour) * 60 + minute) * 60 + second
    }
  }

  /** A date-time a parser can produce: every field in range. */
  type Stamp = d: DateTime | d.WellFormed() witness DateTime(2000, 1, 1, 0, 0, 0, false)

  /** The `strptime` / parser formats the collectors try. */
  datatype Format =
    | DayMonthYear2        // '%d/%m/%y'
    | DayMonthYear4        // '%d/%m/%Y'
    | YearMonthDay         // '%Y-%m-%d'
    | YearMonthDayHms      // '%Y-%m-%d %H:%M:%S'
    | YearMonthDayHm       // '%Y-%m-%d %H:%M'
    | DayMonthYear2Hms     // '%d/%m/%y %H:%M:%S'
    | IsoZulu              // '%Y-%m-%dT%H:%M:%SZ'
    | IsoFormat            // datetime.fromisoformat
    | HourMinute           // '%H:%M'
    | Inferred             // pd.to_datetime, format inferred

  /** A parser: the date-time a string denotes in a format, or `None` where Python raises. */
  type Parser = (string, Format) -> Option<Stamp>

  /** The first format in fmts that parses s, and what it parses to: a chain of `try` / `except ValueError`. */
  function FirstParse(p: Parser, s: string, fmts: seq<Format>): (r: Option<Stamp>)
    ensures r.None? <==> forall i :: 0 <= i < |fmts| ==> p(s, fmts[i]).None?
    ensures r.Some? ==> exists i :: 0 <= i < |fmts| && p(s, fmts[i]) == r &&
                                    forall j :: 0 <= j < i ==> p(s, fmts[j]).None?
  {
    if fmts == [] then None
    else if p(s, fmts[0]).Some? then p(s, fmts[0])
    else
      var r := FirstParse(p, s, fmts[1..]);
      assert forall i :: 1 <= i < |fmts| ==> fmts[i] == fmts[1..][i - 1];
      if r.Some? then
        var i :| 0 <= i < |fmts[1..]| && p(s, fmts[1..][i]) == r && forall j :: 0 <= j < i ==> p(s, fmts[1..][j]).None?;
        assert p(s, fmts[i + 1]) == r;
        r
      else r
  }

  /**
   * `a > b`: `None` where Python raises `TypeError`, i.e. when one side
   * carries an offset and the other does not.
   */
  function After(a: DateTime, b: DateTime): (r: Option<bool>)
    ensures r.None? <==> a.aware != b.aware
    ensures r.Some? ==> (r.value <==> a.Ordinal() > b.Ordinal())
  {
    if a.aware != b.aware then None else Some(a.Ordinal() > b.Ordinal())
  }

  /** `strftime('%Y%m%d')` tells calendar days apart. */
  lemma CompactInjective(a: DateTime, b: DateTime)
    requires a.WellFormed() && b.WellFormed() && a.year >= 1000 && b.year >= 1000
    requires a.Compact() == b.Compact()
    ensures a.year == b.year && a.month == b.month && a.day == b.day
  {
    FourDigits(a.year);
    FourDigits(b.year);
    var s := a.Compact();
    assert s[..4] == NatStr(a.year) && s[..4] == NatStr(b.year);
    NatStrInjective(a.year, b.year);
    assert s[4..6] == Pad2(a.month) == Pad2(b.month);
    assert s[6..8] == Pad2(a.day) == Pad2(b.day);
  }

  /** A year from 1000 to 9999 renders with exactly four digits. */
  lemma FourDigits(y: nat)
    requires 1000 <= y <= 9999
    ensures |NatStr(y)| == 4
  {
    var c, b, a := y / 10 / 10 / 10, y / 10 / 10, y / 10;
    assert 1 <= c < 10 && 10 <= b < 100 && 100 <= a < 1000;
    assert |NatStr(c)| == 1;
    assert NatStr(b) == NatStr(c) + [DigitChar(b % 10)];
    assert NatStr(a) == NatStr(b) + [DigitChar(a % 10)];
    assert NatStr(y) == NatStr(a) + [DigitChar(y % 10)];
  }
}
