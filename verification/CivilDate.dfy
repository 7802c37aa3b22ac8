// Days since 1970-01-01 as a Gregorian date, by the civil-from-days algorithm,
// against a calendar that only counts.
module CivilDate {

  // The leap-year rule of appendix C of RFC 3339.
  predicate IsLeap(year: int) {
    year % 4 == 0 && (year % 100 != 0 || year % 400 == 0)
  }

  function YearLength(year: int): nat {
    if IsLeap(year) then 366 else 365
  }

  // The last day of a month, section 5.7 of RFC 3339.
  function MonthLength(year: int, month: int): nat {
    if month == 2 then (if IsLeap(year) then 29 else 28)
    else if month == 4 || month == 6 || month == 9 || month == 11 then 30
    else 31
  }

  datatype Date = Date(year: int, month: int, day: int)

  predicate Valid(d: Date) {
    1 <= d.month <= 12 && 1 <= d.day <= MonthLength(d.year, d.month)
  }

  // The days of the years from 1970 up to `year`.
  function YearStart(year: int): nat
    requires year >= 1970
  {
    if year == 1970 then 0 else YearStart(year - 1) + YearLength(year - 1)
  }

  // The days of the months of `year` before `month`.
  function MonthStart(year: int, month: int): nat
    requires 1 <= month <= 13
    decreases month
  {
    if month == 1 then 0 else MonthStart(year, month - 1) + MonthLength(year, month - 1)
  }

  function DayNumber(d: Date): int
    requires d.year >= 1970 && Valid(d)
  {
    YearStart(d.year) + MonthStart(d.year, d.month) + d.day - 1
  }

  // The algorithm, as written, for days that are not negative.
  function Civil(days: nat): Date {
    var shifted := days + 719_468;
    var era := shifted / 146_097;
    var dayOfEra := shifted % 146_097;
    var yearOfEra := (dayOfEra - dayOfEra / 1460 + dayOfEra / 36_524 - dayOfEra / 146_096) / 365;
    var dayOfYear := dayOfEra - (365 * yearOfEra + yearOfEra / 4 - yearOfEra / 100);
    var monthIndex := (5 * dayOfYear + 2) / 153;
    var day := dayOfYear - (153 * monthIndex + 2) / 5 + 1;
    var month := if monthIndex < 10 then monthIndex + 3 else monthIndex - 9;
    var year := yearOfEra + era * 400 + if month <= 2 then 1 else 0;
    Date(year, month, day)
  }

  // How many leap years there are in 1..year.
  function Leaps(year: int): int {
    year / 4 - year / 100 + year / 400
  }

  lemma By4(n: int, q: int, r: int)
    requires n == 4 * q + r && 0 <= r < 4
    ensures n / 4 == q && n % 4 == r
  {
  }

  lemma By100(n: int, q: int, r: int)
    requires n == 100 * q + r && 0 <= r < 100
    ensures n / 100 == q && n % 100 == r
  {
  }

  lemma By400(n: int, q: int, r: int)
    requires n == 400 * q + r && 0 <= r < 400
    ensures n / 400 == q && n % 400 == r
  {
  }

  lemma NextBy4(n: int)
    ensures (n + 1) / 4 == n / 4 + (if (n + 1) % 4 == 0 then 1 else 0)
  {
    if n % 4 == 3 { By4(n + 1, n / 4 + 1, 0); } else { By4(n + 1, n / 4, n % 4 + 1); }
  }

  lemma NextBy100(n: int)
    ensures (n + 1) / 100 == n / 100 + (if (n + 1) % 100 == 0 then 1 else 0)
  {
    if n % 100 == 99 { By100(n + 1, n / 100 + 1, 0); } else { By100(n + 1, n / 100, n % 100 + 1); }
  }

  lemma NextBy400(n: int)
    ensures (n + 1) / 400 == n / 400 + (if (n + 1) % 400 == 0 then 1 else 0)
  {
    if n % 400 == 399 { By400(n + 1, n / 400 + 1, 0); } else { By400(n + 1, n / 400, n % 400 + 1); }
  }

  lemma Multiples(n: int)
    ensures n % 400 == 0 ==> n % 100 == 0
    ensures n % 100 == 0 ==> n % 4 == 0
  {
    if n % 400 == 0 { By100(n, 4 * (n / 400), 0); }
    if n % 100 == 0 { By4(n, 25 * (n / 100), 0); }
  }

  lemma LeapsStep(year: int)
    ensures Leaps(year) == Leaps(year - 1) + if IsLeap(year) then 1 else 0
  {
    NextBy4(year - 1);
    NextBy100(year - 1);
    NextBy400(year - 1);
    Multiples(year);
  }

  lemma {:induction false} YearStartClosed(year: int)
    requires year >= 1970
    ensures YearStart(year) == 365 * (year - 1970) + Leaps(year - 1) - 477
    decreases year
  {
    if year > 1970 {
      YearStartClosed(year - 1);
      LeapsStep(year - 1);
    }
  }

  // How the first day of a year, counted from March, lies in its era.
  function EraStart(yearOfEra: int): int {
    365 * yearOfEra + yearOfEra / 4 - yearOfEra / 100
  }

  // The division by 365 finds the year: the day lies inside it.
  lemma YearOfEra(dayOfEra: int)
    requires 0 <= dayOfEra < 146_097
    ensures var y := (dayOfEra - dayOfEra / 1460 + dayOfEra / 36_524 - dayOfEra / 146_096) / 365;
            0 <= y < 400 && 0 <= dayOfEra - EraStart(y) < if IsLeap(y + 1) then 366 else 365
  {
    if dayOfEra < 146_096 {
      var century, ofCentury := dayOfEra / 36_524, dayOfEra % 36_524;
      var cycle, ofCycle := ofCentury / 1461, ofCentury % 1461;
      YearOfCycle(dayOfEra, century, cycle, ofCycle);
    }
  }

  lemma By365(n: int, q: int, r: int)
    requires n == 365 * q + r && 0 <= r < 365
    ensures n / 365 == q
  {
  }

  lemma By1460(n: int, q: int, r: int)
    requires n == 1460 * q + r && 0 <= r < 1460
    ensures n / 1460 == q
  {
  }

  lemma By36524(n: int, q: int, r: int)
    requires n == 36_524 * q + r && 0 <= r < 36_524
    ensures n / 36_524 == q
  {
  }

  // Century, four-year cycle and day in it: `spill` is where dividing by 1460
  // instead of 1461 runs one ahead.
  lemma YearOfCycle(dayOfEra: int, century: int, cycle: int, ofCycle: int)
    requires dayOfEra == 36_524 * century + 1461 * cycle + ofCycle
    requires 0 <= century <= 3 && 0 <= cycle <= 24 && 0 <= ofCycle < 1461
    requires cycle == 24 ==> ofCycle < 1460
    ensures var y := (dayOfEra - dayOfEra / 1460 + dayOfEra / 36_524 - dayOfEra / 146_096) / 365;
            0 <= y < 400 && 0 <= dayOfEra - EraStart(y) < if IsLeap(y + 1) then 366 else 365
  {
    var over := 24 * century + cycle + ofCycle;
    var spill := if over >= 1460 then 1 else 0;
    By1460(dayOfEra, 25 * century + cycle + spill, over - 1460 * spill);
    By36524(dayOfEra, century, 1461 * cycle + ofCycle);
    var year := if ofCycle >= 1095 then 3 else if ofCycle >= 730 then 2 else if ofCycle >= 365 then 1 else 0;
    var n := dayOfEra - dayOfEra / 1460 + dayOfEra / 36_524 - dayOfEra / 146_096;
    By365(n, 100 * century + 4 * cycle + year, ofCycle - spill - 365 * year);
    DayOfCycle(dayOfEra, century, cycle, ofCycle, year);
  }

  lemma DayOfCycle(dayOfEra: int, century: int, cycle: int, ofCycle: int, year: int)
    requires dayOfEra == 36_524 * century + 1461 * cycle + ofCycle
    requires 0 <= century <= 3 && 0 <= cycle <= 24 && 0 <= year <= 3
    requires 365 * year <= ofCycle && (year < 3 ==> ofCycle < 365 * (year + 1)) && ofCycle < 1461
    requires cycle == 24 ==> ofCycle < 1460
    ensures var y := 100 * century + 4 * cycle + year;
            0 <= y < 400 && 0 <= dayOfEra - EraStart(y) < if IsLeap(y + 1) then 366 else 365
  {
    var y := 100 * century + 4 * cycle + year;
    assert y / 4 == 25 * century + cycle && y / 100 == century;
    assert dayOfEra - EraStart(y) == ofCycle - 365 * year;
    if ofCycle == 1460 {
      assert (y + 1) == 4 * (25 * century + cycle + 1);
      assert (y + 1) == 100 * century + 4 * (cycle + 1);
    }
  }

  // The month and the day inside a year that starts in March.
  lemma MonthOfYear(dayOfYear: int)
    requires 0 <= dayOfYear < 366
    ensures var m := (5 * dayOfYear + 2) / 153;
            var first := (153 * m + 2) / 5;
            && 0 <= m <= 11 && first <= dayOfYear < (153 * (m + 1) + 2) / 5
  {
  }

  lemma MonthStarts(year: int)
    ensures MonthStart(year, 1) == 0 && MonthStart(year, 2) == 31
    ensures forall m :: 0 <= m < 10 ==>
              MonthStart(year, m + 3) == (153 * m + 2) / 5 + 59 + if IsLeap(year) then 1 else 0
  {
    forall m | 0 <= m < 10
      ensures MonthStart(year, m + 3) == (153 * m + 2) / 5 + 59 + if IsLeap(year) then 1 else 0
    {
      MonthStartFromMarch(year, m);
    }
  }

  lemma {:induction false} MonthStartFromMarch(year: int, m: int)
    requires 0 <= m < 10
    ensures MonthStart(year, m + 3) == (153 * m + 2) / 5 + 59 + if IsLeap(year) then 1 else 0
    decreases m
  {
    if m == 0 {
      assert MonthStart(year, 2) == 31;
    } else {
      MonthStartFromMarch(year, m - 1);
    }
  }

  // For every day: the date is a real one, and it is that day.
  lemma CivilIsCorrect(days: nat)
    ensures var d := Civil(days);
            d.year >= 1970 && Valid(d) && DayNumber(d) == days
  {
    hide Valid, DayNumber, IsLeap, Leaps, Civil;
    var shifted := days + 719_468;
    var era, dayOfEra := shifted / 146_097, shifted % 146_097;
    YearOfEra(dayOfEra);
    var yearOfEra := (dayOfEra - dayOfEra / 1460 + dayOfEra / 36_524 - dayOfEra / 146_096) / 365;
    var dayOfYear := dayOfEra - EraStart(yearOfEra);
    MonthOfYear(dayOfYear);
    LeapsOfEra(era, yearOfEra);
    CountFromMarch(days, era, yearOfEra, dayOfYear);
    CivilParts(days, era, yearOfEra, dayOfYear);
    FromMarch(days, era * 400 + yearOfEra, dayOfYear, (5 * dayOfYear + 2) / 153, Civil(days));
  }

  // The algorithm's last steps, from the year and the day in it.
  lemma CivilParts(days: nat, era: int, yearOfEra: int, dayOfYear: int)
    requires var dayOfEra := (days + 719_468) % 146_097;
             && era == (days + 719_468) / 146_097
             && yearOfEra == (dayOfEra - dayOfEra / 1460 + dayOfEra / 36_524 - dayOfEra / 146_096) / 365
             && dayOfYear == dayOfEra - EraStart(yearOfEra)
    ensures var m, d := (5 * dayOfYear + 2) / 153, Civil(days);
            && d.month == (if m < 10 then m + 3 else m - 9)
            && d.day == dayOfYear - (153 * m + 2) / 5 + 1
            && d.year == era * 400 + yearOfEra + if d.month <= 2 then 1 else 0
  {
  }

  lemma CountFromMarch(days: nat, era: int, yearOfEra: int, dayOfYear: int)
    requires era >= 0 && 0 <= yearOfEra < 400
    requires days + 719_468 == 146_097 * era + EraStart(yearOfEra) + dayOfYear
    ensures var year := era * 400 + yearOfEra;
            days == 365 * (year - 1970) + Leaps(year) - 477 + 59 + dayOfYear
  {
    LeapsOfEra(era, yearOfEra);
  }

  lemma LeapsOfEra(era: int, yearOfEra: int)
    requires era >= 0 && 0 <= yearOfEra < 400
    ensures Leaps(era * 400 + yearOfEra) == 97 * era + yearOfEra / 4 - yearOfEra / 100
    ensures IsLeap(era * 400 + yearOfEra + 1) <==> IsLeap(yearOfEra + 1)
  {
    var y, n := era * 400 + yearOfEra, yearOfEra + 1;
    By4(y, 100 * era + yearOfEra / 4, yearOfEra % 4);
    By100(y, 4 * era + yearOfEra / 100, yearOfEra % 100);
    By400(y, era, yearOfEra);
    By4(y + 1, 100 * era + n / 4, n % 4);
    By100(y + 1, 4 * era + n / 100, n % 100);
    By400(y + 1, era + n / 400, n % 400);
  }

  lemma FromMarch(days: nat, year: int, dayOfYear: int, m: int, d: Date)
    requires days == 365 * (year - 1970) + Leaps(year) - 477 + 59 + dayOfYear
    requires 0 <= dayOfYear < if IsLeap(year + 1) then 366 else 365
    requires 0 <= m <= 11 && (153 * m + 2) / 5 <= dayOfYear < (153 * (m + 1) + 2) / 5
    requires d.month == if m < 10 then m + 3 else m - 9
    requires d.day == dayOfYear - (153 * m + 2) / 5 + 1
    requires d.year == year + if d.month <= 2 then 1 else 0
    requires year >= 0
    ensures d.year >= 1970 && Valid(d) && DayNumber(d) == days
  {
    assert Valid(d);
    LeapsBound(year);
    MonthStarts(d.year);
    if m < 10 {
      assert year >= 1970;
      YearStartClosed(year);
      LeapsStep(year);
    } else {
      assert year + 1 >= 1970;
      YearStartClosed(year + 1);
    }
  }

  lemma LeapsBound(year: int)
    requires year >= 0
    ensures year <= 1969 ==> Leaps(year) <= 477 + 1
  {
  }

  lemma {:induction false} YearStartGrows(a: int, b: int)
    requires 1970 <= a < b
    ensures YearStart(a) + YearLength(a) <= YearStart(b)
    decreases b
  {
    if a < b - 1 {
      YearStartGrows(a, b - 1);
    }
  }

  lemma {:induction false} MonthStartGrows(year: int, a: int, b: int)
    requires 1 <= a < b <= 13
    ensures MonthStart(year, a) + MonthLength(year, a) <= MonthStart(year, b)
    decreases b
  {
    if a < b - 1 {
      MonthStartGrows(year, a, b - 1);
    }
  }

  // A later date has a later day number, so the date of a day is the only one.
  lemma DayNumberGrows(a: Date, b: Date)
    requires a.year >= 1970 && b.year >= 1970 && Valid(a) && Valid(b)
    ensures DayNumber(a) < DayNumber(b)
       <==> a.year < b.year || (a.year == b.year &&
              (a.month < b.month || (a.month == b.month && a.day < b.day)))
    ensures DayNumber(a) == DayNumber(b) ==> a == b
  {
    if a.year < b.year {
      DayInYear(a);
      YearStartGrows(a.year, b.year);
    } else if b.year < a.year {
      DayInYear(b);
      YearStartGrows(b.year, a.year);
    } else if a.month < b.month {
      MonthStartGrows(a.year, a.month, b.month);
    } else if b.month < a.month {
      MonthStartGrows(a.year, b.month, a.month);
    }
  }

  lemma DayInYear(d: Date)
    requires d.year >= 1970 && Valid(d)
    ensures DayNumber(d) < YearStart(d.year) + YearLength(d.year)
  {
    MonthStartGrows(d.year, d.month, 13);
    assert MonthStart(d.year, 13) == YearLength(d.year) by {
      MonthStarts(d.year);
      assert MonthStart(d.year, 12) == (153 * 9 + 2) / 5 + 59 + if IsLeap(d.year) then 1 else 0 by {
        MonthStartFromMarch(d.year, 9);
      }
    }
  }
}
