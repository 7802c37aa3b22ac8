// The one date the log writes: `rfc3339_utc`.
module Timestamp {
  import opened Basics
  import opened CivilDate
  import opened Decimal

  // The time since the epoch, zero for a clock before it.
  function Rfc3339(secs: nat): string {
    var date := Civil(secs / 86_400);
    var rem := secs % 86_400;
    CivilIsCorrect(secs / 86_400);
    Pad(date.year, 4)
    + ("-" + Pad(date.month, 2) + "-" + Pad(date.day, 2) + "T"
       + Pad(rem / 3600, 2) + ":" + Pad(rem % 3600 / 60, 2) + ":" + Pad(rem % 60, 2) + "Z")
  }

  // What follows the year: `-MM-DDTHH:MM:SSZ`, 16 characters.
  predicate IsTail(s: string) {
    && |s| == 16
    && s[0] == '-' && s[3] == '-' && s[6] == 'T' && s[9] == ':' && s[12] == ':' && s[15] == 'Z'
    && AllDigits(s[1..3]) && AllDigits(s[4..6]) && AllDigits(s[7..9]) && AllDigits(s[10..12]) && AllDigits(s[13..15])
  }

  // The parts of a timestamp, read back by position.
  datatype Stamp = Stamp(date: Date, hour: nat, minute: nat, second: nat)

  function Read(s: string): Option<Stamp> {
    if |s| < 17 || !AllDigits(s[..|s| - 16]) || !IsTail(s[|s| - 16..]) then None
    else
      var tail := s[|s| - 16..];
      Some(Stamp(Date(Value(s[..|s| - 16]), Value(tail[1..3]), Value(tail[4..6])),
                 Value(tail[7..9]), Value(tail[10..12]), Value(tail[13..15])))
  }

  predicate Plausible(stamp: Stamp) {
    && Valid(stamp.date) && stamp.hour <= 23 && stamp.minute <= 59 && stamp.second <= 59
  }

  function SecondsOf(stamp: Stamp): int
    requires stamp.date.year >= 1970 && Valid(stamp.date)
  {
    DayNumber(stamp.date) * 86_400 + stamp.hour * 3600 + stamp.minute * 60 + stamp.second
  }

  // The `date-time` production of section 5.6 of RFC 3339 in UTC, with the day
  // limits of section 5.7.
  predicate IsDateTime(s: string) {
    |s| == 20 && Read(s).Some? && Plausible(Read(s).value)
  }

  function TailOf(stamp: Stamp): string
    requires stamp.date.month >= 0 && stamp.date.day >= 0
  {
    "-" + Pad(stamp.date.month, 2) + "-" + Pad(stamp.date.day, 2) + "T"
    + Pad(stamp.hour, 2) + ":" + Pad(stamp.minute, 2) + ":" + Pad(stamp.second, 2) + "Z"
  }

  lemma TwoDigits(n: nat)
    requires n < 100
    ensures |Pad(n, 2)| == 2 && Value(Pad(n, 2)) == n
  {
    PadLength(n, 2);
    ValueOfPad(n, 2);
    assert Pow10(2) == 10 * Pow10(1) && Pow10(1) == 10 * Pow10(0);
  }

  lemma TailParts(stamp: Stamp)
    requires Plausible(stamp)
    ensures var tail := TailOf(stamp);
            && IsTail(tail)
            && Value(tail[1..3]) == stamp.date.month && Value(tail[4..6]) == stamp.date.day
            && Value(tail[7..9]) == stamp.hour && Value(tail[10..12]) == stamp.minute
            && Value(tail[13..15]) == stamp.second
  {
    hide Pad, Value;
    TwoDigits(stamp.date.month);
    TwoDigits(stamp.date.day);
    TwoDigits(stamp.hour);
    TwoDigits(stamp.minute);
    TwoDigits(stamp.second);
    var tail := TailOf(stamp);
    assert tail[1..3] == Pad(stamp.date.month, 2) && tail[4..6] == Pad(stamp.date.day, 2);
    assert tail[7..9] == Pad(stamp.hour, 2) && tail[10..12] == Pad(stamp.minute, 2);
    assert tail[13..15] == Pad(stamp.second, 2);
  }

  function StampOf(secs: nat): Stamp {
    var rem := secs % 86_400;
    Stamp(Civil(secs / 86_400), rem / 3600, rem % 3600 / 60, rem % 60)
  }

  // For every second count, the text reads back as a real date and time of
  // day, and those are that second count.
  lemma TimestampInverts(secs: nat)
    ensures var stamp := Read(Rfc3339(secs));
            && stamp == Some(StampOf(secs))
            && Plausible(stamp.value) && stamp.value.date.year >= 1970
            && SecondsOf(stamp.value) == secs
  {
    hide Pad, Value, MonthLength, Civil, DayNumber;
    var stamp := StampOf(secs);
    CivilIsCorrect(secs / 86_400);
    TailParts(stamp);
    ValueOfPad(stamp.date.year, 4);
    var year, tail := Pad(stamp.date.year, 4), TailOf(stamp);
    var s := Rfc3339(secs);
    assert s == year + tail;
    assert s[..|s| - 16] == year && s[|s| - 16..] == tail;
  }

  // It is an RFC 3339 date-time exactly up to the last second of 9999.
  lemma DateTimeIff(secs: nat)
    ensures IsDateTime(Rfc3339(secs)) <==> secs < 253_402_300_800
  {
    hide Pad, Value, Civil;
    var stamp := StampOf(secs);
    TimestampInverts(secs);
    CivilIsCorrect(secs / 86_400);
    TailParts(stamp);
    PadLength(stamp.date.year, 4);
    assert Pow10(4) == 10_000 by {
      assert Pow10(4) == 10 * Pow10(3) && Pow10(3) == 10 * Pow10(2) && Pow10(2) == 10 * Pow10(1);
    }
    assert |Rfc3339(secs)| == |Pad(stamp.date.year, 4)| + 16;
    var first := Date(10_000, 1, 1);
    YearStartClosed(10_000);
    DayNumberGrows(stamp.date, first);
  }
}
