/** Instants as milliseconds since the Unix epoch, and `Date.prototype.toISOString`. */
module Timestamps {
  import Text

  /** A JavaScript `Date`, as its time value in milliseconds (UTC). */
  type Time = int

  const MillisPerDay := 86_400_000

  /** The proleptic Gregorian (year, month, day) of a day count relative to 1970-01-01. */
  function CivilFromDays(days: int): (int, int, int)
  {
    var z := days + 719_468;
    var era := z / 146_097;
    var doe := z - era * 146_097;
    var yoe := (doe - doe / 1460 + doe / 36_524 - doe / 146_096) / 365;
    var doy := doe - (365 * yoe + yoe / 4 - yoe / 100);
    var mp := (5 * doy + 2) / 153;
    var day := doy - (153 * mp + 2) / 5 + 1;
    var month := if mp < 10 then mp + 3 else mp - 9;
    var year := yoe + era * 400 + (if month <= 2 then 1 else 0);
    (year, month, day)
  }

  function Padded(n: int, width: nat): string
  {
    Text.PadStart(Text.IntToString(n), width, '0')
  }

  /** Four digits for years 0..9999, otherwise a sign and six digits, as ECMAScript requires. */
  function YearString(year: int): string
  {
    if 0 <= year <= 9999 then Padded(year, 4)
    else if year < 0 then "-" + Padded(-year, 6)
    else "+" + Padded(year, 6)
  }

  /** `toISOString`: `YYYY-MM-DDTHH:mm:ss.sssZ`. */
  function IsoString(t: Time): string
  {
    var (year, month, day) := CivilFromDays(t / MillisPerDay);
    var ms := t % MillisPerDay;
    YearString(year) + "-" + Padded(month, 2) + "-" + Padded(day, 2) + "T"
    + Padded(ms / 3_600_000, 2) + ":" + Padded(ms / 60_000 % 60, 2) + ":"
    + Padded(ms / 1000 % 60, 2) + "." + Padded(ms % 1000, 3) + "Z"
  }

  /** Two-digit fields of the ISO form. */
  lemma PaddedTwo(n: nat)
    requires n < 100
    ensures Padded(n, 2) == [Text.DigitChar(n / 10), Text.DigitChar(n % 10)]
  {
    var s := Text.NatToString(n);
    assert Text.IntToString(n) == s;
    if n >= 10 {
      assert n / 10 < 10 && Text.NatToString(n / 10) == [Text.DigitChar(n / 10)];
      assert s == Text.NatToString(n / 10) + [Text.DigitChar(n % 10)];
    } else {
      assert s == [Text.DigitChar(n)] && n / 10 == 0 && n % 10 == n;
      assert Text.PadStart(s, 2, '0') == ['0'] + Text.PadStart(s, 1, '0') == ['0'] + s;
    }
  }

  /** The three-digit milliseconds field. */
  lemma PaddedThree(n: nat)
    requires n < 1000
    ensures Padded(n, 3) == [Text.DigitChar(n / 100), Text.DigitChar(n / 10 % 10), Text.DigitChar(n % 10)]
  {
    var s := Text.NatToString(n);
    assert Text.IntToString(n) == s;
    if n >= 100 {
      assert Text.NatToString(n / 10) == [Text.DigitChar(n / 100)] + [Text.DigitChar(n / 10 % 10)];
      assert s == Text.NatToString(n / 10) + [Text.DigitChar(n % 10)];
    } else if n >= 10 {
      assert n / 100 == 0 && n / 10 % 10 == n / 10;
      assert n / 10 < 10 && Text.NatToString(n / 10) == [Text.DigitChar(n / 10)];
      assert s == Text.NatToString(n / 10) + [Text.DigitChar(n % 10)];
      assert Text.PadStart(s, 3, '0') == ['0'] + Text.PadStart(s, 2, '0') == ['0'] + s;
    } else {
      assert n / 100 == 0 && n / 10 % 10 == 0 && n % 10 == n;
      assert s == [Text.DigitChar(n)];
      assert Text.PadStart(s, 2, '0') == ['0'] + Text.PadStart(s, 1, '0') == ['0'] + s;
      assert Text.PadStart(s, 3, '0') == ['0'] + Text.PadStart(s, 2, '0');
    }
  }

  /** A four-digit year. */
  lemma YearFourDigits(year: int)
    requires 1000 <= year <= 9999
    ensures YearString(year) == [Text.DigitChar(year / 1000), Text.DigitChar(year / 100 % 10),
                                 Text.DigitChar(year / 10 % 10), Text.DigitChar(year % 10)]
  {
    assert Text.NatToString(year) == Text.NatToString(year / 10) + [Text.DigitChar(year % 10)];
    assert Text.NatToString(year / 10) == Text.NatToString(year / 100) + [Text.DigitChar(year / 10 % 10)];
    assert Text.NatToString(year / 100) == Text.NatToString(year / 1000) + [Text.DigitChar(year / 100 % 10)];
  }

  /** The instant 0 falls on day 0 at 00:00:00.000. */
  lemma EpochClock()
    ensures 0 / MillisPerDay == 0 && 0 % MillisPerDay == 0
    ensures 0 / 3_600_000 == 0 && 0 / 60_000 % 60 == 0 && 0 / 1000 % 60 == 0 && 0 % 1000 == 0
  {
  }

  /** Day 0 is 1 January 1970. */
  lemma EpochDate()
    ensures CivilFromDays(0) == (1970, 1, 1)
  {
    assert 719_468 / 146_097 == 4;
    assert 135_080 / 1460 == 92 && 135_080 / 36_524 == 3 && 135_080 / 146_096 == 0;
    assert 134_991 / 365 == 369 && 369 / 4 == 92 && 369 / 100 == 3;
    assert 1532 / 153 == 10 && 1532 / 5 == 306;
  }

  /** The epoch's fields render as "1970", "01", "00" and "000". */
  lemma EpochFields()
    ensures YearString(1970) == "1970" && Padded(1, 2) == "01" && Padded(0, 2) == "00" && Padded(0, 3) == "000"
  {
    YearFourDigits(1970);
    PaddedTwo(1);
    PaddedTwo(0);
    PaddedThree(0);
  }

  /** The epoch itself. */
  lemma IsoStringEpoch()
    ensures IsoString(0) == "1970-01-01T00:00:00.000Z"
  {
    EpochClock();
    EpochDate();
    assert IsoString(0) == YearString(1970) + "-" + Padded(1, 2) + "-" + Padded(1, 2) + "T" + Padded(0, 2) + ":"
                           + Padded(0, 2) + ":" + Padded(0, 2) + "." + Padded(0, 3) + "Z";
    EpochFields();
  }

  /** The instant -1 falls on day -1 at 23:59:59.999. */
  lemma EveOfEpochClock()
    ensures -1 / MillisPerDay == -1 && -1 % MillisPerDay == 86_399_999
    ensures 86_399_999 / 3_600_000 == 23 && 86_399_999 / 60_000 % 60 == 59
    ensures 86_399_999 / 1000 % 60 == 59 && 86_399_999 % 1000 == 999
  {
  }

  /** Day -1 is 31 December 1969. */
  lemma EveOfEpochDate()
    ensures CivilFromDays(-1) == (1969, 12, 31)
  {
    assert 719_467 / 146_097 == 4;
    assert 135_079 / 1460 == 92 && 135_079 / 36_524 == 3 && 135_079 / 146_096 == 0;
    assert 134_990 / 365 == 369 && 369 / 4 == 92 && 369 / 100 == 3;
    assert 1527 / 153 == 9 && 1379 / 5 == 275;
  }

  /** Within century `b`, four-year cycle `k` and day `s` of that cycle, the year of the era is
      `100 * b + 4 * k` plus the year within the cycle (a cycle's leap day stays in its last year). */
  lemma {:induction false} YearOfEra(b: int, k: int, s: int)
    requires 0 <= b <= 3 && 0 <= k <= 24 && 0 <= s <= 1460
    requires 1461 * k + s < 36_524
    ensures var doe := 36_524 * b + 1461 * k + s;
            (doe - doe / 1460 + b) / 365 == 100 * b + 4 * k + (if s / 365 < 3 then s / 365 else 3)
  {
    var doe := 36_524 * b + 1461 * k + s;
    var a := doe / 1460;
    assert 1460 * a <= doe < 1460 * a + 1460;
    var j := if s / 365 < 3 then s / 365 else 3;
    assert 365 * j <= s <= 365 * j + 365;
  }

  /** The March-based day of the year, for a day given by century, four-year cycle and day of cycle. */
  lemma {:induction false} DayOfYearIn(b: int, k: int, s: int)
    requires 0 <= b <= 3 && 0 <= k <= 24 && 0 <= s <= 1460
    requires 1461 * k + s < 36_524
    ensures var doe := 36_524 * b + 1461 * k + s;
            var yoe := (doe - doe / 1460 + b) / 365;
            0 <= doe - (365 * yoe + yoe / 4 - yoe / 100) <= 365
  {
    YearOfEra(b, k, s);
    var j := if s / 365 < 3 then s / 365 else 3;
    var yoe := 100 * b + 4 * k + j;
    assert yoe / 4 == 25 * b + k + j / 4;
    assert yoe / 100 == b;
  }

  /** The day of the (March-based) year that `CivilFromDays` computes within a 400-year era. */
  lemma {:induction false} DayOfYearRange(doe: int)
    requires 0 <= doe < 146_097
    ensures var yoe := (doe - doe / 1460 + doe / 36_524 - doe / 146_096) / 365;
            0 <= doe - (365 * yoe + yoe / 4 - yoe / 100) <= 365
  {
    if doe == 146_096 {
      assert doe / 1460 == 100 && doe / 36_524 == 4 && doe / 146_096 == 1;
    } else {
      var b := doe / 36_524;
      assert 36_524 * b <= doe < 36_524 * b + 36_524;
      assert doe / 146_096 == 0 && 0 <= b <= 3;
      var r := doe - 36_524 * b;
      var k := r / 1461;
      var s := r - 1461 * k;
      assert 1461 * k <= r < 1461 * k + 1461;
      DayOfYearIn(b, k, s);
      assert doe == 36_524 * b + 1461 * k + s;
    }
  }

  /** A March-based day of the year 0..365 gives a month 1..12 and a day 1..31. */
  lemma {:induction false} MonthDayRange(doy: int)
    requires 0 <= doy <= 365
    ensures var mp := (5 * doy + 2) / 153;
            var day := doy - (153 * mp + 2) / 5 + 1;
            0 <= mp <= 11 && 1 <= day <= 31
  {
    var mp := (5 * doy + 2) / 153;
    assert 153 * mp <= 5 * doy + 2 < 153 * mp + 153;
    var r := (153 * mp + 2) / 5;
    assert 5 * r <= 153 * mp + 2 < 5 * r + 5;
  }

  /** Every day count lands on a calendar date: a month 1..12 and a day 1..31. */
  lemma {:induction false} CivilFromDaysRanges(days: int)
    ensures 1 <= CivilFromDays(days).1 <= 12 && 1 <= CivilFromDays(days).2 <= 31
  {
    var z := days + 719_468;
    var era := z / 146_097;
    var doe := z - era * 146_097;
    assert 146_097 * era <= z < 146_097 * era + 146_097;
    DayOfYearRange(doe);
    var yoe := (doe - doe / 1460 + doe / 36_524 - doe / 146_096) / 365;
    MonthDayRange(doe - (365 * yoe + yoe / 4 - yoe / 100));
  }

  /** The last millisecond of day -1 renders as "1969", "12", "31", "23", "59" and "999". */
  lemma EveOfEpochFields()
    ensures YearString(1969) == "1969" && Padded(12, 2) == "12" && Padded(31, 2) == "31"
    ensures Padded(23, 2) == "23" && Padded(59, 2) == "59" && Padded(999, 3) == "999"
  {
    YearFourDigits(1969);
    PaddedTwo(12);
    PaddedTwo(31);
    PaddedTwo(23);
    PaddedTwo(59);
    PaddedThree(999);
  }

  /** The millisecond before the epoch: days and milliseconds are floored, as `Date` does. */
  lemma IsoStringBeforeEpoch()
    ensures IsoString(-1) == "1969-12-31T23:59:59.999Z"
  {
    EveOfEpochClock();
    EveOfEpochDate();
    EveOfEpochFields();
    assert IsoString(-1) == "1969" + "-" + "12" + "-" + "31" + "T" + "23" + ":" + "59" + ":" + "59" + "." + "999" + "Z";
  }
}
