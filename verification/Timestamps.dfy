/** The S3 signing timestamp (src/connectors.rs): text that reads back as the time it stands for and
    sorts as time does. */
module Timestamps {
  import opened Prelude
  import opened Calendar

  function Digit(d: nat): char
    requires d < 10
  {
    '0' + d as char
  }

  // n in decimal, padded with zeros to the width it is known to fit.
  function Pad(n: nat, width: nat): (s: string)
    ensures |s| == width
  {
    if width == 0 then "" else Pad(n / 10, width - 1) + [Digit(n % 10)]
  }

  ghost predicate LexLess(s: string, t: string) {
    exists i :: LexLessAt(s, t, i)
  }

  ghost predicate LexLessAt(s: string, t: string, i: int) {
    0 <= i < |s| && i < |t| && s[..i] == t[..i] && s[i] < t[i]
  }

  lemma LexAsymmetric(s: string, t: string)
    requires LexLess(s, t)
    ensures !LexLess(t, s)
  {
    var i :| LexLessAt(s, t, i);
    forall j ensures !LexLessAt(t, s, j) {
      if 0 <= j < i {
        assert s[..i][j] == t[..i][j];
      } else if i < j <= |s| && j <= |t| {
        PrefixesDiffer(s, t, i, j);
      }
    }
  }

  lemma PrefixesDiffer(s: string, t: string, i: nat, j: nat)
    requires i < j <= |s| && j <= |t| && s[i] != t[i]
    ensures s[..j] != t[..j]
  {
    assert s[..j][i] == s[i] && t[..j][i] == t[i];
  }

  lemma LexAppend(s: string, t: string, u: string, v: string)
    requires |s| == |t| && LexLess(s, t)
    ensures LexLess(s + u, t + v)
  {
    var i :| LexLessAt(s, t, i);
    assert (s + u)[..i] == s[..i] && (t + v)[..i] == t[..i];
    assert LexLessAt(s + u, t + v, i);
  }

  lemma LexPrepend(s: string, u: string, v: string)
    requires LexLess(u, v)
    ensures LexLess(s + u, s + v)
  {
    var i :| LexLessAt(u, v, i);
    assert (s + u)[..|s| + i] == s + u[..i] && (s + v)[..|s| + i] == s + v[..i];
    assert LexLessAt(s + u, s + v, |s| + i);
  }

  lemma {:induction false} PadLess(a: nat, b: nat, width: nat)
    requires a < b < Pow10(width)
    ensures LexLess(Pad(a, width), Pad(b, width))
  {
    if a / 10 < b / 10 {
      PadLess(a / 10, b / 10, width - 1);
      LexAppend(Pad(a / 10, width - 1), Pad(b / 10, width - 1), [Digit(a % 10)], [Digit(b % 10)]);
    } else {
      assert LexLessAt([Digit(a % 10)], [Digit(b % 10)], 0);
      LexPrepend(Pad(a / 10, width - 1), [Digit(a % 10)], [Digit(b % 10)]);
    }
  }

  lemma Widths10()
    ensures Pow10(2) == 100 && Pow10(4) == 10000
  {
    assert Pow10(2) == 10 * 10;
    assert Pow10(4) == 10 * 10 * Pow10(2);
  }

  predicate Printable(d: Date) { 0 <= d.year < 10000 && 0 <= d.month < 100 && 0 <= d.day < 100 }

  function DateText(d: Date): string
    requires Printable(d)
  {
    Pad(d.year, 4) + (Pad(d.month, 2) + Pad(d.day, 2))
  }

  function TimeText(secondsOfDay: nat): string
    requires secondsOfDay < 86400
  {
    Pad(secondsOfDay / 3600, 2) + (Pad(secondsOfDay % 3600 / 60, 2) + Pad(secondsOfDay % 60, 2))
  }

  function FullText(d: Date, secondsOfDay: nat): string
    requires Printable(d) && secondsOfDay < 86400
  {
    DateText(d) + ("T" + (TimeText(secondsOfDay) + "Z"))
  }

  datatype Timestamp = Timestamp(date: string, full: string)

  function AwsTimestamp(seconds: u64): Result<Timestamp> {
    var date := CivilFromDays(seconds / 86400);
    CivilIsInverse(seconds / 86400);
    if !(1970 <= date.year <= 9999) then Err(InvalidData)
    else Ok(Timestamp(DateText(date), FullText(date, seconds % 86400)))
  }

  lemma DateTextLess(a: Date, b: Date)
    requires Printable(a) && Printable(b) && Earlier(a, b)
    ensures LexLess(DateText(a), DateText(b))
  {
    Widths10();
    if a.year < b.year {
      PadLess(a.year, b.year, 4);
      LexAppend(Pad(a.year, 4), Pad(b.year, 4), Pad(a.month, 2) + Pad(a.day, 2), Pad(b.month, 2) + Pad(b.day, 2));
    } else {
      if a.month < b.month {
        PadLess(a.month, b.month, 2);
        LexAppend(Pad(a.month, 2), Pad(b.month, 2), Pad(a.day, 2), Pad(b.day, 2));
      } else {
        PadLess(a.day, b.day, 2);
        LexPrepend(Pad(a.month, 2), Pad(a.day, 2), Pad(b.day, 2));
      }
      LexPrepend(Pad(a.year, 4), Pad(a.month, 2) + Pad(a.day, 2), Pad(b.month, 2) + Pad(b.day, 2));
    }
  }

  // Hour, minute and second of one time, against those of a later one.
  predicate ClockLess(h: nat, m: nat, s: nat, h': nat, m': nat, s': nat) {
    h < h' || (h == h' && (m < m' || (m == m' && s < s')))
  }

  lemma ClockTextLess(h: nat, m: nat, s: nat, h': nat, m': nat, s': nat)
    requires ClockLess(h, m, s, h', m', s') && h' < 100 && m' < 100 && s' < 100 && m < 100
    ensures LexLess(Pad(h, 2) + (Pad(m, 2) + Pad(s, 2)), Pad(h', 2) + (Pad(m', 2) + Pad(s', 2)))
  {
    Widths10();
    if h < h' {
      PadLess(h, h', 2);
      LexAppend(Pad(h, 2), Pad(h', 2), Pad(m, 2) + Pad(s, 2), Pad(m', 2) + Pad(s', 2));
    } else {
      if m < m' {
        PadLess(m, m', 2);
        LexAppend(Pad(m, 2), Pad(m', 2), Pad(s, 2), Pad(s', 2));
      } else {
        PadLess(s, s', 2);
        LexPrepend(Pad(m, 2), Pad(s, 2), Pad(s', 2));
      }
      LexPrepend(Pad(h, 2), Pad(m, 2) + Pad(s, 2), Pad(m', 2) + Pad(s', 2));
    }
  }

  lemma TimeTextLess(a: nat, b: nat)
    requires a < b < 86400
    ensures LexLess(TimeText(a), TimeText(b))
  {
    ClockParts(a);
    ClockParts(b);
    ClockTextLess(a / 3600, a % 3600 / 60, a % 60, b / 3600, b % 3600 / 60, b % 60);
  }

  lemma ClockParts(a: nat)
    requires a < 86400
    ensures a == 3600 * (a / 3600) + 60 * (a % 3600 / 60) + a % 60
    ensures a / 3600 < 24 && a % 3600 / 60 < 60
  {
    var x := a % 3600;
    assert a == 3600 * (a / 3600) + x;
    assert x == 60 * (x / 60) + x % 60;
    DivModIs(a, 60 * (a / 3600) + x / 60, x % 60, 60);
  }

  lemma FullTextLess(x: Date, s: nat, y: Date, t: nat)
    requires Printable(x) && Printable(y) && s < 86400 && t < 86400
    requires Earlier(x, y) || (x == y && s < t)
    ensures LexLess(FullText(x, s), FullText(y, t))
  {
    if Earlier(x, y) {
      DateTextLess(x, y);
      LexAppend(DateText(x), DateText(y), "T" + (TimeText(s) + "Z"), "T" + (TimeText(t) + "Z"));
    } else {
      TimeTextLess(s, t);
      LexAppend(TimeText(s), TimeText(t), "Z", "Z");
      LexPrepend("T", TimeText(s) + "Z", TimeText(t) + "Z");
      LexPrepend(DateText(x), "T" + (TimeText(s) + "Z"), "T" + (TimeText(t) + "Z"));
    }
  }

  lemma DaysApart(a: nat, b: nat)
    requires a < b
    ensures a / 86400 < b / 86400 || (a / 86400 == b / 86400 && a % 86400 < b % 86400)
  {
  }

  lemma Stamped(a: u64) returns (d: Date)
    requires AwsTimestamp(a).Ok?
    ensures ValidDate(d) && Printable(d) && DayNumber(d) == a / 86400
    ensures AwsTimestamp(a).value.full == FullText(d, a % 86400)
  {
    CivilIsInverse(a / 86400);
    d := CivilFromDays(a / 86400);
  }

  // Later seconds give later text, as long as both are in range.
  lemma TimestampsAscend(a: u64, b: u64)
    requires a < b && AwsTimestamp(a).Ok? && AwsTimestamp(b).Ok?
    ensures LexLess(AwsTimestamp(a).value.full, AwsTimestamp(b).value.full)
  {
    var x := Stamped(a);
    var y := Stamped(b);
    DaysApart(a, b);
    if DayNumber(x) < DayNumber(y) {
      LaterIsLater(x, y);
    } else {
      SameDaySameDate(x, y);
    }
    FullTextLess(x, a % 86400, y, b % 86400);
  }

  // The clock runs out at the end of the year 9999, and only there.
  lemma TimestampRange(seconds: u64)
    ensures AwsTimestamp(seconds).Ok? <==> seconds < 253402300800
  {
    var days, date := seconds / 86400, CivilFromDays(seconds / 86400);
    CivilIsInverse(days);
    var first, last := Date(1970, 1, 1), Date(9999, 12, 31);
    Landmarks();
    if Earlier(date, first) {
      DayNumberAscends(date, first);
    }
    if Earlier(last, date) {
      DayNumberAscends(last, date);
    } else if Earlier(date, last) {
      DayNumberAscends(date, last);
    }
    assert date.year > 9999 <==> Earlier(last, date);
  }

  lemma Landmarks()
    ensures ValidDate(Date(1970, 1, 1)) && DayNumber(Date(1970, 1, 1)) == 0
    ensures ValidDate(Date(9999, 12, 31)) && DayNumber(Date(9999, 12, 31)) == 2932896
  {
    MonthTable(9999);
    assert DaysBeforeMonth(9999, 9 + 3) == 59 + MonthStart(9);
  }

  // ----- reading a timestamp -----

  predicate IsDigit(c: char) { '0' <= c <= '9' }

  predicate Digits(s: string) { forall i :: 0 <= i < |s| ==> IsDigit(s[i]) }

  // The number that a string of digits denotes.
  function Number(s: string): nat
    requires Digits(s)
  {
    if s == "" then 0
    else 10 * Number(s[..|s| - 1]) + (s[|s| - 1] as int - '0' as int)
  }

  lemma {:induction false} PadValue(n: nat, width: nat)
    requires n < Pow10(width)
    ensures Digits(Pad(n, width)) && Number(Pad(n, width)) == n
  {
    if width > 0 {
      PadValue(n / 10, width - 1);
      assert Pad(n, width)[..width - 1] == Pad(n / 10, width - 1);
    }
  }

  // The fields of a timestamp, by their places in the text.
  ghost predicate Reads(text: string, date: Date, hour: nat, minute: nat, second: nat) {
    && |text| == 16 && text[8] == 'T' && text[15] == 'Z'
    && Field(text, 0, 4, date.year) && Field(text, 4, 6, date.month) && Field(text, 6, 8, date.day)
    && Field(text, 9, 11, hour) && Field(text, 11, 13, minute) && Field(text, 13, 15, second)
  }

  ghost predicate Field(text: string, from: nat, to: nat, n: int)
    requires from <= to <= |text|
  {
    Digits(text[from..to]) && Number(text[from..to]) == n
  }

  lemma DateReads(d: Date)
    requires Printable(d)
    ensures var t := DateText(d);
      |t| == 8 && Field(t, 0, 4, d.year) && Field(t, 4, 6, d.month) && Field(t, 6, 8, d.day)
  {
    var t := DateText(d);
    Widths10();
    PadValue(d.year, 4);
    PadValue(d.month, 2);
    PadValue(d.day, 2);
    assert t[0..4] == Pad(d.year, 4) && t[4..6] == Pad(d.month, 2) && t[6..8] == Pad(d.day, 2);
  }

  lemma TimeReads(s: nat)
    requires s < 86400
    ensures var t := TimeText(s);
      |t| == 6 && Field(t, 0, 2, s / 3600) && Field(t, 2, 4, s % 3600 / 60) && Field(t, 4, 6, s % 60)
  {
    var t := TimeText(s);
    Widths10();
    PadValue(s / 3600, 2);
    PadValue(s % 3600 / 60, 2);
    PadValue(s % 60, 2);
    assert t[0..2] == Pad(s / 3600, 2) && t[2..4] == Pad(s % 3600 / 60, 2) && t[4..6] == Pad(s % 60, 2);
  }

  lemma FullReads(d: Date, s: nat)
    requires Printable(d) && s < 86400
    ensures Reads(FullText(d, s), d, s / 3600, s % 3600 / 60, s % 60) && FullText(d, s)[..8] == DateText(d)
  {
    var full, date, time := FullText(d, s), DateText(d), TimeText(s);
    DateReads(d);
    TimeReads(s);
    assert full[..8] == date && full[9..15] == time;
    assert full[0..4] == date[0..4] && full[4..6] == date[4..6] && full[6..8] == date[6..8];
    assert full[9..11] == time[0..2] && full[11..13] == time[2..4] && full[13..15] == time[4..6];
  }

  // The round trip: read as a calendar date and a time of day, the text gives back the seconds it was made from; and
  // its date part is the date on its own.
  lemma TimestampReadsBack(seconds: u64) returns (date: Date, hour: nat, minute: nat, second: nat)
    requires AwsTimestamp(seconds).Ok?
    ensures var stamp := AwsTimestamp(seconds).value;
      Reads(stamp.full, date, hour, minute, second) && stamp.date == stamp.full[..8]
    ensures ValidDate(date) && hour < 24 && minute < 60 && second < 60
    ensures 86400 * DayNumber(date) + 3600 * hour + 60 * minute + second == seconds
  {
    date := CivilFromDays(seconds / 86400);
    CivilIsInverse(seconds / 86400);
    var s := seconds % 86400;
    FullReads(date, s);
    ClockParts(s);
    hour, minute, second := s / 3600, s % 3600 / 60, s % 60;
  }
}
