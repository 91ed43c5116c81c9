/** The text that `format_millis_utc` renders, exact to the minute. */
module TimestampText {
  import opened Timestamp

  function Digit(n: int): char
    requires 0 <= n < 10
  {
    '0' + n as char
  }

  // Decimal digits, filled up with zeros to a width.
  function Decimal(n: nat, width: nat): (s: string)
    ensures |s| >= width && |s| > 0
    decreases n, width
  {
    if n < 10 && width <= 1 then [Digit(n)]
    else Decimal(n / 10, if width == 0 then 0 else width - 1) + [Digit(n % 10)]
  }

  // A sign counts towards the width.
  function SignedDecimal(n: int, width: nat): string {
    if n >= 0 then Decimal(n, width) else "-" + Decimal(-n, if width == 0 then 0 else width - 1)
  }

  function Rendered(date: Date, hour: int, minute: int): string {
    SignedDecimal(date.year, 4) + "-" + SignedDecimal(date.month, 2) + "-" + SignedDecimal(date.day, 2)
      + " " + SignedDecimal(hour, 2) + ":" + SignedDecimal(minute, 2) + "Z"
  }

  function FormatMillis(ms: int): string {
    Rendered(CivilFromDays(ms / MS_PER_DAY), Hour(ms), MinuteOfHour(ms))
  }

  function Hour(ms: int): int { ms % MS_PER_DAY / 1000 / 3600 }

  function MinuteOfHour(ms: int): int { ms % MS_PER_DAY / 1000 % 3600 / 60 }

  // --- Reading the text back ---------------------------------------------------------

  function ReadDecimal(s: string): int {
    if s == "" then 0 else ReadDecimal(s[..|s| - 1]) * 10 + (s[|s| - 1] as int - '0' as int)
  }

  function ReadSigned(s: string): int {
    if s != "" && s[0] == '-' then -ReadDecimal(s[1..]) else ReadDecimal(s)
  }

  datatype Reading = Reading(date: Date, hour: int, minute: int)

  // The thirteen characters behind the year.
  predicate IsTail(t: string) {
    |t| == 13 && t[0] == '-' && t[3] == '-' && t[6] == ' ' && t[9] == ':' && t[12] == 'Z'
  }

  function ReadTail(year: int, t: string): Reading
    requires IsTail(t)
  {
    Reading(Date(year, ReadDecimal(t[1..3]), ReadDecimal(t[4..6])), ReadDecimal(t[7..9]), ReadDecimal(t[10..12]))
  }

  // A year of four characters or more, and its tail.
  predicate HasFields(s: string) {
    |s| >= 17 && IsTail(s[|s| - 13..])
  }

  function ReadBack(s: string): Reading
    requires HasFields(s)
  {
    ReadTail(ReadSigned(s[..|s| - 13]), s[|s| - 13..])
  }

  lemma {:induction false} DecimalReads(n: nat, width: nat)
    ensures ReadDecimal(Decimal(n, width)) == n
    ensures Decimal(n, width)[0] != '-'
    decreases n, width
  {
    if n < 10 && width <= 1 {
      assert Decimal(n, width)[..0] == "";
    } else {
      var w := if width == 0 then 0 else width - 1;
      DecimalReads(n / 10, w);
      assert Decimal(n, width)[..|Decimal(n, width)| - 1] == Decimal(n / 10, w);
    }
  }

  lemma SignedDecimalReads(n: int, width: nat)
    requires width > 0
    ensures ReadSigned(SignedDecimal(n, width)) == n && |SignedDecimal(n, width)| >= width
  {
    hide Decimal, ReadDecimal;
    if n >= 0 {
      DecimalReads(n, width);
    } else {
      DecimalReads(-n, width - 1);
      assert SignedDecimal(n, width)[1..] == Decimal(-n, width - 1);
    }
  }

  lemma TwoDigits(n: int)
    requires 0 <= n < 100
    ensures SignedDecimal(n, 2) == [Digit(n / 10), Digit(n % 10)]
    ensures ReadDecimal([Digit(n / 10), Digit(n % 10)]) == n
  {
    assert Decimal(n / 10, 1) == [Digit(n / 10)];
    DecimalReads(n, 2);
  }

  // The fields behind the year, as thirteen characters.
  function Tail(month: int, day: int, hour: int, minute: int): (s: string)
    requires 0 <= month < 100 && 0 <= day < 100 && 0 <= hour < 100 && 0 <= minute < 100
    ensures |s| == 13
  {
    ['-', Digit(month / 10), Digit(month % 10), '-', Digit(day / 10), Digit(day % 10),
     ' ', Digit(hour / 10), Digit(hour % 10), ':', Digit(minute / 10), Digit(minute % 10), 'Z']
  }

  lemma TailShape(month: int, day: int, hour: int, minute: int)
    requires 0 <= month < 100 && 0 <= day < 100 && 0 <= hour < 100 && 0 <= minute < 100
    ensures "-" + SignedDecimal(month, 2) + "-" + SignedDecimal(day, 2) + " " + SignedDecimal(hour, 2)
              + ":" + SignedDecimal(minute, 2) + "Z" == Tail(month, day, hour, minute)
  {
    TwoDigits(month);
    TwoDigits(day);
    TwoDigits(hour);
    TwoDigits(minute);
  }

  lemma TailReads(year: int, month: int, day: int, hour: int, minute: int)
    requires 0 <= month < 100 && 0 <= day < 100 && 0 <= hour < 100 && 0 <= minute < 100
    ensures var t := Tail(month, day, hour, minute);
            IsTail(t) && ReadTail(year, t) == Reading(Date(year, month, day), hour, minute)
  {
    var t := Tail(month, day, hour, minute);
    assert t[1..3] == [Digit(month / 10), Digit(month % 10)];
    assert t[4..6] == [Digit(day / 10), Digit(day % 10)];
    assert t[7..9] == [Digit(hour / 10), Digit(hour % 10)];
    assert t[10..12] == [Digit(minute / 10), Digit(minute % 10)];
    TwoDigits(month);
    TwoDigits(day);
    TwoDigits(hour);
    TwoDigits(minute);
  }

  lemma Regroup(y: string, a: string, b: string, c: string, d: string)
    ensures y + "-" + a + "-" + b + " " + c + ":" + d + "Z" == y + ("-" + a + "-" + b + " " + c + ":" + d + "Z")
  {
  }

  lemma Shape(d: Date, hour: int, minute: int)
    requires Valid(d) && 0 <= hour < 24 && 0 <= minute < 60
    ensures Rendered(d, hour, minute) == SignedDecimal(d.year, 4) + Tail(d.month, d.day, hour, minute)
  {
    TailShape(d.month, d.day, hour, minute);
    Regroup(SignedDecimal(d.year, 4), SignedDecimal(d.month, 2), SignedDecimal(d.day, 2),
            SignedDecimal(hour, 2), SignedDecimal(minute, 2));
  }

  lemma FieldsBehind(y: string, t: string)
    requires |y| >= 4 && IsTail(t)
    ensures HasFields(y + t) && ReadBack(y + t) == ReadTail(ReadSigned(y), t)
  {
    var s := y + t;
    assert s[..|s| - 13] == y && s[|s| - 13..] == t;
  }

  lemma RenderedReads(d: Date, hour: int, minute: int)
    requires Valid(d) && 0 <= hour < 24 && 0 <= minute < 60
    ensures HasFields(Rendered(d, hour, minute))
    ensures ReadBack(Rendered(d, hour, minute)) == Reading(d, hour, minute)
  {
    Shape(d, hour, minute);
    SignedDecimalReads(d.year, 4);
    TailReads(d.year, d.month, d.day, hour, minute);
    FieldsBehind(SignedDecimal(d.year, 4), Tail(d.month, d.day, hour, minute));
  }

  lemma MinuteOfDay(ms: int)
    ensures ms / 60_000 == 1440 * (ms / MS_PER_DAY) + 60 * Hour(ms) + MinuteOfHour(ms)
    ensures 0 <= Hour(ms) < 24 && 0 <= MinuteOfHour(ms) < 60
  {
  }

  // The text spells the civil date and the time of day, field by field; together they
  // are the instant to the minute.
  lemma TextReadsBack(ms: int)
    ensures var text := FormatMillis(ms);
            && HasFields(text)
            && ReadBack(text) == Reading(CivilFromDays(ms / MS_PER_DAY), Hour(ms), MinuteOfHour(ms))
            && ms / 60_000 ==
                 1440 * DaysFromCivil(ReadBack(text).date) + 60 * ReadBack(text).hour + ReadBack(text).minute
  {
    DaysInvertCivil(ms / MS_PER_DAY);
    MinuteOfDay(ms);
    RenderedReads(CivilFromDays(ms / MS_PER_DAY), Hour(ms), MinuteOfHour(ms));
  }

  lemma SameMinuteSameFields(a: int, b: int)
    requires a / 60_000 == b / 60_000
    ensures a / MS_PER_DAY == b / MS_PER_DAY && Hour(a) == Hour(b) && MinuteOfHour(a) == MinuteOfHour(b)
  {
    MinuteOfDay(a);
    MinuteOfDay(b);
  }

  // Two instants render alike exactly when they fall within the same minute.
  lemma SameTextSameMinute(a: int, b: int)
    ensures FormatMillis(a) == FormatMillis(b) <==> a / 60_000 == b / 60_000
  {
    hide Rendered, CivilFromDays, DaysFromCivil, Hour, MinuteOfHour, HasFields, ReadBack;
    TextReadsBack(a);
    TextReadsBack(b);
    if a / 60_000 == b / 60_000 {
      SameMinuteSameFields(a, b);
    }
  }
}
