// The clock of a board: a mixed-radix counter of seconds, minutes, hours, days, months and years that
// the timer interrupt advances once a second.
module Rtc {
  import opened Words

  datatype Date = Date(second: uint8, minute: uint8, hour: uint8, dayOfWeek: uint8,
                       day: uint8, month: uint8, year: uint8, age: uint8)

  const DAY := 86400
  const YEARS := 256
  const SPAN := YEARS * 365 * DAY

  function Wrapped(x: uint8): uint8 {
    if x == 255 then 0 else x + 1
  }

  // February has 28 days in every year; a month that does not exist has none.
  function DaysIn(month: uint8): uint8 {
    match month
    case 1 => 31 case 2 => 28 case 3 => 31 case 4 => 30 case 5 => 31 case 6 => 30
    case 7 => 31 case 8 => 31 case 9 => 30 case 10 => 31 case 11 => 30 case 12 => 31
    case _ => 0
  }

  // The lengths of the months: long and short alternate, and July and August are both long.
  lemma MonthLengths(month: uint8)
    requires 1 <= month <= 12
    ensures DaysIn(month) == if month == 2 then 28 else 30 + (month + month / 8) % 2
  {
  }

  // Midnight: the next day, in whatever state the date is.
  function NextDay(d: Date): Date {
    var dayOfWeek := if Wrapped(d.dayOfWeek) == 8 then 1 else Wrapped(d.dayOfWeek);
    var day := Wrapped(d.day);
    if day <= DaysIn(d.month) then d.(dayOfWeek := dayOfWeek, day := day)
    else if Wrapped(d.month) <= 12 then d.(dayOfWeek := dayOfWeek, day := 1, month := Wrapped(d.month))
    else d.(dayOfWeek := dayOfWeek, day := 1, month := 1, year := Wrapped(d.year))
  }

  function NextHour(d: Date): Date {
    var e := d.(age := if d.age < 255 then d.age + 1 else d.age, hour := Wrapped(d.hour));
    if e.hour == 24 then NextDay(e.(hour := 0)) else e
  }

  function NextMinute(d: Date): Date {
    var e := d.(minute := Wrapped(d.minute));
    if e.minute == 60 then NextHour(e.(minute := 0)) else e
  }

  // One second.
  function Tick(d: Date): Date {
    var e := d.(second := Wrapped(d.second));
    if e.second == 60 then NextMinute(e.(second := 0)) else e
  }

  function Run(d: Date, n: nat): Date {
    if n == 0 then d else Tick(Run(d, n - 1))
  }

  class Clock {
    var second: uint8
    var minute: uint8
    var hour: uint8
    var dayOfWeek: uint8
    var dayOfMonth: uint8
    var monthOfYear: uint8
    var year: uint8
    var lastDateUpdate: uint8

    // As at power-on.
    constructor ()
      ensures Snapshot() == Date(0, 0, 0, 0, 0, 0, 0, 255)
    {
      second, minute, hour := 0, 0, 0;
      dayOfWeek, dayOfMonth, monthOfYear, year := 0, 0, 0, 0;
      lastDateUpdate := 255;
    }

    ghost function Snapshot(): Date
      reads this
    {
      Date(second, minute, hour, dayOfWeek, dayOfMonth, monthOfYear, year, lastDateUpdate)
    }

    method UpdateDatetime()
      modifies this
      ensures Snapshot() == Tick(old(Snapshot()))
    {
      second := Wrapped(second);
      if second == 60 {
        second := 0;
        minute := Wrapped(minute);
        if minute == 60 {
          minute := 0;
          if lastDateUpdate < 255 {
            lastDateUpdate := lastDateUpdate + 1;
          }
          hour := Wrapped(hour);
          if hour == 24 {
            hour := 0;
            UpdateDate();
          }
        }
      }
    }

    // A new day.
    method UpdateDate()
      modifies this
      ensures Snapshot() == NextDay(old(Snapshot()))
    {
      dayOfWeek := Wrapped(dayOfWeek);
      if dayOfWeek == 8 {
        dayOfWeek := 1;
      }
      dayOfMonth := Wrapped(dayOfMonth);
      if dayOfMonth > DaysIn(monthOfYear) {
        dayOfMonth := 1;
        monthOfYear := Wrapped(monthOfYear);
        if monthOfYear > 12 {
          monthOfYear := 1;
          year := Wrapped(year);
        }
      }
    }
  }

  // ---------- The absolute count of seconds ----------

  predicate TimeValid(d: Date) {
    d.second < 60 && d.minute < 60 && d.hour < 24
  }

  predicate DateValid(d: Date) {
    1 <= d.day <= DaysIn(d.month)
  }

  predicate Valid(d: Date) {
    TimeValid(d) && DateValid(d) && 1 <= d.dayOfWeek <= 7
  }

  // The days of a year before a month.
  function DaysBefore(month: nat): nat
    requires 1 <= month <= 13
  {
    if month == 1 then 0 else DaysBefore(month - 1) + DaysIn(month - 1)
  }

  lemma MonthsOfTheYear()
    ensures DaysBefore(1) == 0 && DaysBefore(2) == 31 && DaysBefore(3) == 59 && DaysBefore(4) == 90
    ensures DaysBefore(5) == 120 && DaysBefore(6) == 151 && DaysBefore(7) == 181 && DaysBefore(8) == 212
    ensures DaysBefore(9) == 243 && DaysBefore(10) == 273 && DaysBefore(11) == 304 && DaysBefore(12) == 334
    ensures DaysBefore(13) == 365
  {
    assert DaysBefore(4) == 90;
    assert DaysBefore(7) == 181;
    assert DaysBefore(10) == 273;
  }

  // The day of the year, from 0.
  function DayOfYear(d: Date): (k: nat)
    requires DateValid(d)
    ensures k < 365
  {
    MonthsOfTheYear();
    DaysBefore(d.month) + d.day - 1
  }

  function TimeOfDay(d: Date): (t: nat)
    requires TimeValid(d)
    ensures t < DAY
  {
    3600 * d.hour + 60 * d.minute + d.second
  }

  function DayNumber(d: Date): (k: nat)
    requires DateValid(d)
    ensures k < YEARS * 365
  {
    365 * d.year + DayOfYear(d)
  }

  // Seconds since the first second of year 0.
  function Count(d: Date): (c: nat)
    requires Valid(d)
    ensures c < SPAN
  {
    DAY * DayNumber(d) + TimeOfDay(d)
  }

  lemma NextDayCounts(d: Date)
    requires DateValid(d) && 1 <= d.dayOfWeek <= 7
    ensures var e := NextDay(d);
            && DateValid(e) && 1 <= e.dayOfWeek <= 7
            && DayNumber(e) == (if DayNumber(d) + 1 == YEARS * 365 then 0 else DayNumber(d) + 1)
            && e.dayOfWeek == (if d.dayOfWeek == 7 then 1 else d.dayOfWeek + 1)
            && TimeOfDayOnly(e) == TimeOfDayOnly(d) && e.age == d.age
  {
    MonthsOfTheYear();
  }

  function TimeOfDayOnly(d: Date): (uint8, uint8, uint8) {
    (d.hour, d.minute, d.second)
  }

  lemma TickCounts(d: Date)
    requires Valid(d)
    ensures Valid(Tick(d))
    ensures Count(Tick(d)) == if Count(d) + 1 == SPAN then 0 else Count(d) + 1
  {
    if d.second == 59 && d.minute == 59 && d.hour == 23 {
      var e := NextHour(d.(second := 0, minute := 0)).age;
      NextDayCounts(d.(second := 0, minute := 0, hour := 0, age := e));
    }
  }

  // A counter that runs from 0 to n - 1 and over again, after some steps.
  function Counter(c: nat, n: nat, steps: nat): nat {
    if steps == 0 then c
    else
      var before := Counter(c, n, steps - 1);
      if before + 1 == n then 0 else before + 1
  }

  lemma {:induction false} CounterWraps(c: nat, n: nat, steps: nat)
    requires c < n
    ensures Counter(c, n, steps) == (c + steps) % n
  {
    if steps == 0 {
      RemainderUnique(0, c, n);
    } else {
      CounterWraps(c, n, steps - 1);
      NextRemainder(c + steps - 1, n);
    }
  }

  lemma {:induction false} RunIsCounter(d: Date, n: nat)
    requires Valid(d)
    ensures Valid(Run(d, n)) && Count(Run(d, n)) == Counter(Count(d), SPAN, n)
  {
    if n > 0 {
      RunIsCounter(d, n - 1);
      TickCounts(Run(d, n - 1));
    }
  }

  // Any number of seconds from any valid date.
  lemma RunCounts(d: Date, n: nat)
    requires Valid(d)
    ensures Valid(Run(d, n)) && Count(Run(d, n)) == (Count(d) + n) % SPAN
  {
    RunIsCounter(d, n);
    CounterWraps(Count(d), SPAN, n);
  }

  lemma NextRemainder(x: nat, n: nat)
    requires n > 0
    ensures (x + 1) % n == if x % n + 1 == n then 0 else x % n + 1
    ensures (x + 1) / n == if x % n + 1 == n then x / n + 1 else x / n
  {
    var q := x / n;
    assert x == q * n + x % n;
    if x % n + 1 == n {
      assert x + 1 == (q + 1) * n + 0;
      RemainderUnique(q + 1, 0, n);
    } else {
      RemainderUnique(q, x % n + 1, n);
    }
    SameQuotient(x + 1, n, if x % n + 1 == n then q + 1 else q);
  }

  lemma SameQuotient(x: nat, n: nat, q: nat)
    requires n > 0 && x == q * n + x % n
    ensures x / n == q
  {
    var e := x / n - q;
    assert e * n == 0;
    AtLeast(e, n);
  }

  // The count says everything about date and time.
  lemma CountDetermines(a: Date, b: Date)
    requires Valid(a) && Valid(b) && Count(a) == Count(b)
    ensures TimeOfDayOnly(a) == TimeOfDayOnly(b)
    ensures a.day == b.day && a.month == b.month && a.year == b.year
  {
    SameDigits(DayNumber(a), TimeOfDay(a), DayNumber(b), TimeOfDay(b), DAY);
    SameDigits(60 * a.hour + a.minute, a.second, 60 * b.hour + b.minute, b.second, 60);
    SameDigits(a.hour, a.minute, b.hour, b.minute, 60);
    SameDate(a, b);
  }

  lemma SameDigits(high: nat, low: nat, high': nat, low': nat, n: nat)
    requires low < n && low' < n && n * high + low == n * high' + low'
    ensures high == high' && low == low'
  {
    AtLeast(high - high', n);
  }

  lemma SameDate(a: Date, b: Date)
    requires DateValid(a) && DateValid(b) && DayNumber(a) == DayNumber(b)
    ensures a.day == b.day && a.month == b.month && a.year == b.year
  {
    SameDigits(a.year, DayOfYear(a), b.year, DayOfYear(b), 365);
    SameDayOfYear(a, b);
  }

  lemma SameDayOfYear(a: Date, b: Date)
    requires DateValid(a) && DateValid(b) && DayOfYear(a) == DayOfYear(b)
    ensures a.day == b.day && a.month == b.month
  {
    if a.month < b.month {
      LaterMonth(a, b);
    } else if b.month < a.month {
      LaterMonth(b, a);
    }
  }

  lemma LaterMonth(a: Date, b: Date)
    requires DateValid(a) && DateValid(b) && a.month < b.month
    ensures DayOfYear(a) < DayOfYear(b)
  {
    DaysGrow(a.month, b.month);
  }

  lemma {:induction false} DaysGrow(m: nat, n: nat)
    requires 1 <= m < n <= 13
    ensures DaysBefore(m) + DaysIn(m) <= DaysBefore(n)
    decreases n - m
  {
    if m + 1 < n {
      DaysGrow(m, n - 1);
    }
  }

  // ---------- Day of the week and age ----------

  // How often such a counter has started over.
  function StartsOver(c: nat, n: nat, steps: nat): nat {
    if steps == 0 then 0 else StartsOver(c, n, steps - 1) + if Counter(c, n, steps) == 0 then 1 else 0
  }

  lemma {:induction false} StartsOverBy(c: nat, n: nat, steps: nat)
    requires c < n
    ensures Counter(c, n, steps) < n
    ensures c + steps == StartsOver(c, n, steps) * n + Counter(c, n, steps)
  {
    if steps > 0 {
      StartsOverBy(c, n, steps - 1);
      var q := StartsOver(c, n, steps - 1);
      assert (q + 1) * n == q * n + n;
    }
  }

  lemma StartsOverIs(c: nat, n: nat, steps: nat)
    requires c < n
    ensures StartsOver(c, n, steps) == (c + steps) / n
  {
    StartsOverBy(c, n, steps);
    RemainderUnique(StartsOver(c, n, steps), Counter(c, n, steps), n);
    SameQuotient(c + steps, n, StartsOver(c, n, steps));
  }

  // A counter from 0 to 6 that moves on whenever another one, from 0 to n - 1, starts over.
  function Carried(w: nat, c: nat, n: nat, steps: nat): nat {
    if steps == 0 then w
    else
      var before := Carried(w, c, n, steps - 1);
      if Counter(c, n, steps) != 0 then before else if before == 6 then 0 else before + 1
  }

  lemma {:induction false} CarriedIs(w: nat, c: nat, n: nat, steps: nat)
    requires w < 7
    ensures Carried(w, c, n, steps) == (w + StartsOver(c, n, steps)) % 7
  {
    if steps > 0 {
      CarriedIs(w, c, n, steps - 1);
    }
  }

  lemma {:induction false} DayRunIsCarried(d: Date, n: nat)
    requires Valid(d)
    ensures Valid(Run(d, n)) && TimeOfDay(Run(d, n)) == Counter(TimeOfDay(d), DAY, n)
    ensures Run(d, n).dayOfWeek - 1 == Carried(d.dayOfWeek - 1, TimeOfDay(d), DAY, n)
  {
    if n > 0 {
      DayRunIsCarried(d, n - 1);
      DayTick(Run(d, n - 1));
    }
  }

  // The day of the week moves on at every midnight, and only then.
  lemma DayOfWeekCycles(d: Date, n: nat)
    requires Valid(d)
    ensures Valid(Run(d, n)) && TimeOfDay(Run(d, n)) == (TimeOfDay(d) + n) % DAY
    ensures Run(d, n).dayOfWeek - 1 == (d.dayOfWeek - 1 + (TimeOfDay(d) + n) / DAY) % 7
  {
    DayRunIsCarried(d, n);
    CounterWraps(TimeOfDay(d), DAY, n);
    StartsOverIs(TimeOfDay(d), DAY, n);
    CarriedIs(d.dayOfWeek - 1, TimeOfDay(d), DAY, n);
  }

  lemma DayTick(d: Date)
    requires Valid(d)
    ensures Valid(Tick(d))
    ensures TimeOfDay(Tick(d)) == if TimeOfDay(d) + 1 == DAY then 0 else TimeOfDay(d) + 1
    ensures Tick(d).dayOfWeek ==
            if TimeOfDay(d) + 1 < DAY then d.dayOfWeek else if d.dayOfWeek == 7 then 1 else d.dayOfWeek + 1
  {
    TickCounts(d);
  }

  // How old the last time frame is, in begun hours and never more than 255.
  lemma {:induction false} AgeCountsHours(d: Date, n: nat)
    requires TimeValid(d)
    ensures TimeValid(Run(d, n))
    ensures (60 * Run(d, n).minute + Run(d, n).second) == (60 * d.minute + d.second + n) % 3600
    ensures Run(d, n).age == if d.age + (60 * d.minute + d.second + n) / 3600 < 255
                             then d.age + (60 * d.minute + d.second + n) / 3600 else 255
  {
    if n > 0 {
      AgeCountsHours(d, n - 1);
      NextRemainder(60 * d.minute + d.second + n - 1, 3600);
    }
  }

  // After a time frame the date counts as valid (age below 255) until the 255th full hour.
  lemma FreshIff(d: Date, n: nat)
    requires TimeValid(d) && d.age == 0
    ensures Run(d, n).age != 255 <==> 60 * d.minute + d.second + n < 255 * 3600
  {
    AgeCountsHours(d, n);
  }

  // ---------- Recovery ----------

  // Whatever bytes day and month hold, the third midnight leaves a date that exists; only from day
  // 255 of month 255 does it take that long.
  lemma DateRecovers(d: Date)
    ensures DateValid(NextDay(NextDay(NextDay(d))))
    ensures DateValid(NextDay(NextDay(d))) <==> !(d.day == 255 && d.month == 255)
    ensures DateValid(d) ==> DateValid(NextDay(d))
  {
    var e := NextDay(d);
    assert e.day == 0 || DateValid(e) || e.month == 0;
  }
}
