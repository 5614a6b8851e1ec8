// The proleptic Gregorian calendar, as far as subtracting an age from an instant needs it.
module Calendar {
  import opened Instants

  predicate LeapYear(y: nat) {
    y % 4 == 0 && (y % 100 != 0 || y % 400 == 0)
  }

  function DaysInYear(y: nat): nat {
    if LeapYear(y) then 366 else 365
  }

  function DaysInMonth(y: nat, m: nat): nat {
    if m == 2 then (if LeapYear(y) then 29 else 28)
    else if m == 4 || m == 6 || m == 9 || m == 11 then 30
    else 31
  }

  // Days from the first of January of year one.
  function DaysBeforeYear(y: nat): nat {
    if y <= 1 then 0 else DaysBeforeYear(y - 1) + DaysInYear(y - 1)
  }

  function DaysBeforeMonth(y: nat, m: nat): nat {
    if m <= 1 then 0 else DaysBeforeMonth(y, m - 1) + DaysInMonth(y, m - 1)
  }

  predicate CalendarInstant(t: Instant) {
    ValidInstant(t) && t.day <= DaysInMonth(t.year, t.month)
  }

  function DayNumber(t: Instant): int {
    DaysBeforeYear(t.year) + DaysBeforeMonth(t.year, t.month) + t.day - 1
  }

  const MICROS_PER_DAY := 86_400_000_000

  function MicrosOfDay(t: Instant): nat {
    ((t.hour * 60 + t.minute) * 60 + t.second) * 1_000_000 + t.micro
  }

  // Microseconds since the calendar began.
  function Micros(t: Instant): int {
    DayNumber(t) * MICROS_PER_DAY + MicrosOfDay(t)
  }

  // The days before a year in closed form: one more for every fourth year, but not for centuries
  // that are no multiple of four.
  lemma {:induction false} YearsCounted(y: nat)
    requires 1 <= y
    ensures DaysBeforeYear(y) == (y - 1) * 365 + (y - 1) / 4 - (y - 1) / 100 + (y - 1) / 400
  {
    if y > 1 {
      YearsCounted(y - 1);
      Fourths(y - 1);
      Centuries(y - 1);
    }
  }

  lemma Fourths(n: nat)
    requires n > 0
    ensures n / 4 == (n - 1) / 4 + if n % 4 == 0 then 1 else 0
    ensures n / 100 == (n - 1) / 100 + if n % 100 == 0 then 1 else 0
    ensures n / 400 == (n - 1) / 400 + if n % 400 == 0 then 1 else 0
  {
  }

  lemma Centuries(n: nat)
    ensures n % 100 == 0 ==> n % 4 == 0
    ensures n % 400 == 0 ==> n % 100 == 0
  {
    assert n % 100 == 0 ==> n == 4 * (25 * (n / 100));
    assert n % 400 == 0 ==> n == 100 * (4 * (n / 400));
  }

  const DAYS_BEFORE_MONTH := [0, 31, 59, 90, 120, 151, 181, 212, 243, 273, 304, 334]

  // The days before a month, one more after the second in a year of 366 days.
  lemma MonthsCounted(y: nat, m: nat)
    requires 1 <= y && 1 <= m <= 12
    ensures DaysBeforeMonth(y, m) ==
            DAYS_BEFORE_MONTH[m - 1] + if m > 2 && DaysBeforeYear(y + 1) - DaysBeforeYear(y) == 366 then 1 else 0
  {
    assert DaysBeforeMonth(y, 1) == 0;
    assert DaysBeforeMonth(y, 2) == 31;
    assert DaysBeforeMonth(y, 3) == 31 + DaysInMonth(y, 2);
    assert DaysBeforeMonth(y, 4) == DaysBeforeMonth(y, 3) + 31;
    assert DaysBeforeMonth(y, 5) == DaysBeforeMonth(y, 3) + 61;
    assert DaysBeforeMonth(y, 6) == DaysBeforeMonth(y, 5) + 31;
    assert DaysBeforeMonth(y, 7) == DaysBeforeMonth(y, 5) + 61;
    assert DaysBeforeMonth(y, 8) == DaysBeforeMonth(y, 7) + 31;
    assert DaysBeforeMonth(y, 9) == DaysBeforeMonth(y, 7) + 62;
    assert DaysBeforeMonth(y, 10) == DaysBeforeMonth(y, 9) + 30;
    assert DaysBeforeMonth(y, 11) == DaysBeforeMonth(y, 9) + 61;
    assert DaysBeforeMonth(y, 12) == DaysBeforeMonth(y, 11) + 30;
  }

  lemma MonthsMakeAYear(y: nat)
    requires 1 <= y
    ensures DaysBeforeMonth(y, 12) + 31 == DaysInYear(y)
  {
    MonthsCounted(y, 12);
  }

  lemma {:induction false} MonthsGrow(y: nat, m: nat, n: nat)
    requires 1 <= m < n
    ensures DaysBeforeMonth(y, m) + DaysInMonth(y, m) <= DaysBeforeMonth(y, n)
    decreases n
  {
    if m + 1 < n { MonthsGrow(y, m, n - 1); }
  }

  lemma {:induction false} YearsGrow(y: nat, z: nat)
    requires 1 <= y < z
    ensures DaysBeforeYear(y) + DaysInYear(y) <= DaysBeforeYear(z)
    decreases z
  {
    if y + 1 < z { YearsGrow(y, z - 1); }
  }

  lemma DayWithinYear(t: Instant)
    requires CalendarInstant(t)
    ensures 0 <= DayNumber(t) - DaysBeforeYear(t.year) < DaysInYear(t.year)
  {
    MonthsMakeAYear(t.year);
    if t.month < 12 { MonthsGrow(t.year, t.month, 12); }
    hide DaysBeforeMonth;
  }

  lemma EarlierDay(a: Instant, b: Instant)
    requires CalendarInstant(a) && CalendarInstant(b)
    requires a.year < b.year || (a.year == b.year && (a.month < b.month || (a.month == b.month && a.day < b.day)))
    ensures DayNumber(a) < DayNumber(b)
  {
    DayWithinYear(a);
    DayWithinYear(b);
    if a.year < b.year {
      YearsGrow(a.year, b.year);
      hide DayNumber;
    } else if a.month < b.month {
      MonthsGrow(a.year, a.month, b.month);
      hide DaysBeforeMonth, DaysBeforeYear, DaysInYear;
    }
  }

  lemma MicrosWithinDay(t: Instant)
    requires ValidInstant(t)
    ensures MicrosOfDay(t) < MICROS_PER_DAY
  {
  }

  // The order of instants is the order of their microseconds.
  lemma MicrosOrder(a: Instant, b: Instant)
    requires CalendarInstant(a) && CalendarInstant(b)
    ensures NotAfter(a, b) <==> Micros(a) <= Micros(b)
  {
    MicrosWithinDay(a);
    MicrosWithinDay(b);
    if a.year != b.year || a.month != b.month || a.day != b.day {
      if NotAfter(a, b) { EarlierDay(a, b); } else { EarlierDay(b, a); }
      hide DayNumber, MicrosOfDay;
    } else {
      assert DayNumber(a) == DayNumber(b);
      hide DayNumber;
    }
  }

  // ----- Back from microseconds to an instant -----

  // The year that holds day n of the years from y on, and the day within it.
  function YearAt(n: nat, y: nat): (nat, nat) {
    if n < DaysInYear(y) then (y, n) else YearAt(n - DaysInYear(y), y + 1)
  }

  function MonthAt(n: nat, y: nat, m: nat): (nat, nat)
    decreases n
  {
    if m >= 12 || n < DaysInMonth(y, m) then (m, n) else MonthAt(n - DaysInMonth(y, m), y, m + 1)
  }

  lemma {:induction false} YearAtExact(n: nat, y: nat)
    requires 1 <= y
    ensures var (z, rest) := YearAt(n, y); y <= z && rest < DaysInYear(z) && DaysBeforeYear(y) + n == DaysBeforeYear(z) + rest
    decreases n
  {
    if n >= DaysInYear(y) { YearAtExact(n - DaysInYear(y), y + 1); }
  }

  lemma {:induction false} MonthAtExact(n: nat, y: nat, m: nat)
    requires 1 <= y && 1 <= m <= 12 && DaysBeforeMonth(y, m) + n < DaysInYear(y)
    ensures var (k, rest) := MonthAt(n, y, m);
            m <= k <= 12 && 0 <= rest < DaysInMonth(y, k) && DaysBeforeMonth(y, m) + n == DaysBeforeMonth(y, k) + rest
    decreases n
  {
    if m == 12 {
      MonthsMakeAYear(y);
    } else if n >= DaysInMonth(y, m) {
      MonthAtExact(n - DaysInMonth(y, m), y, m + 1);
    }
  }

  function InstantAt(micros: nat): Instant {
    var (y, dayOfYear) := YearAt(micros / MICROS_PER_DAY, 1);
    var (m, day) := MonthAt(dayOfYear, y, 1);
    var rest := micros % MICROS_PER_DAY;
    var seconds := rest / 1_000_000;
    Instant(y, m, day + 1, seconds / 3600, seconds / 60 % 60, seconds % 60, rest % 1_000_000)
  }

  lemma TimeOfDayExact(rest: nat)
    requires rest < MICROS_PER_DAY
    ensures var seconds := rest / 1_000_000;
            && seconds / 3600 < 24
            && ((seconds / 3600 * 60 + seconds / 60 % 60) * 60 + seconds % 60) * 1_000_000 + rest % 1_000_000 == rest
  {
    var seconds := rest / 1_000_000;
    assert seconds / 60 / 60 == seconds / 3600;
    assert seconds / 60 == seconds / 3600 * 60 + seconds / 60 % 60;
    assert seconds == seconds / 60 * 60 + seconds % 60;
  }

  lemma DateAtExact(n: nat)
    ensures
      var (y, dayOfYear) := YearAt(n, 1);
      var (m, day) := MonthAt(dayOfYear, y, 1);
      && 1 <= y && 1 <= m <= 12 && 0 <= day < DaysInMonth(y, m) <= 31
      && DaysBeforeYear(y) + DaysBeforeMonth(y, m) + day == n && DaysBeforeYear(y) <= n
  {
    YearAtExact(n, 1);
    var (y, dayOfYear) := YearAt(n, 1);
    assert DaysBeforeYear(1) == 0 && DaysBeforeMonth(y, 1) == 0;
    MonthAtExact(dayOfYear, y, 1);
  }

  lemma InstantAtExact(micros: nat)
    ensures Micros(InstantAt(micros)) == micros
    ensures InstantAt(micros).year <= 9999 ==> CalendarInstant(InstantAt(micros))
    ensures var t := InstantAt(micros); 1 <= t.year && MicrosOfDay(t) < MICROS_PER_DAY && DayNumber(t) >= DaysBeforeYear(t.year)
  {
    DateAtExact(micros / MICROS_PER_DAY);
    TimeOfDayExact(micros % MICROS_PER_DAY);
    hide YearAt, MonthAt, DaysInYear, DaysInMonth, DaysBeforeYear, DaysBeforeMonth;
    var t := InstantAt(micros);
    assert MicrosOfDay(t) == micros % MICROS_PER_DAY;
    assert DayNumber(t) == micros / MICROS_PER_DAY;
  }

  // An age before an instant, unless that is before the calendar began.
  predicate HasEarlier(now: Instant, age: int) {
    0 <= age <= Micros(now)
  }

  function Earlier(now: Instant, age: int): Instant
    requires HasEarlier(now, age)
  {
    InstantAt(Micros(now) - age)
  }

  lemma EarlierExact(now: Instant, age: int)
    requires CalendarInstant(now) && HasEarlier(now, age)
    ensures CalendarInstant(Earlier(now, age)) && Micros(Earlier(now, age)) == Micros(now) - age
  {
    hide InstantAt, Micros, CalendarInstant;
    var micros := Micros(now) - age;
    InstantAtExact(micros);
    YearNotLater(InstantAt(micros), now);
    assert now.year <= 9999 by { YearIsValid(now); }
  }

  lemma YearIsValid(t: Instant)
    requires CalendarInstant(t)
    ensures t.year <= 9999
  {
  }

  // Less time has passed by an earlier year.
  lemma YearNotLater(a: Instant, b: Instant)
    requires 1 <= a.year && Micros(a) <= Micros(b) && CalendarInstant(b)
    requires MicrosOfDay(a) < MICROS_PER_DAY && DayNumber(a) >= DaysBeforeYear(a.year)
    ensures a.year <= b.year
  {
    DayWithinYear(b);
    MicrosWithinDay(b);
    if b.year < a.year { YearsGrow(b.year, a.year); }
    hide DayNumber, MicrosOfDay, DaysBeforeYear, DaysInYear;
  }
}
