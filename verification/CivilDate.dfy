/** Day numbers and civil dates (proleptic Gregorian calendar), as the logger converts them. */
module CivilDate {
  import opened Bits

  datatype Date = Date(year: int, month: nat, day: nat)

  // ---------- the calendar ----------

  predicate IsLeap(y: int) {
    y % 4 == 0 && (y % 100 != 0 || y % 400 == 0)
  }

  function DaysInMonth(y: int, m: nat): nat {
    if m == 2 then (if IsLeap(y) then 29 else 28)
    else if m in {4, 6, 9, 11} then 30
    else 31
  }

  predicate Valid(t: Date) {
    1 <= t.month <= 12 && 1 <= t.day <= DaysInMonth(t.year, t.month)
  }

  /** The next day of the calendar. */
  function Next(t: Date): Date {
    if t.day < DaysInMonth(t.year, t.month) then t.(day := t.day + 1)
    else if t.month < 12 then Date(t.year, t.month + 1, 1)
    else Date(t.year + 1, 1, 1)
  }

  // ---------- the conversions ----------

  /** Division of machine integers, which truncates towards zero. */
  function TruncDiv(a: int, b: int): int
    requires b > 0
  {
    if a >= 0 then a / b else -((-a) / b)
  }

  function CivilFromDays(day: int): Date {
    var z := day + 719_468;
    var era := TruncDiv(if z >= 0 then z else z - 146_096, 146_097);
    var doe := z - era * 146_097;
    var yoe := YearOfEra(doe);
    var y := yoe + era * 400;
    var doy := doe - (365 * yoe + yoe / 4 - yoe / 100);
    EraDay(z);
    DateInYear(y, doy)
  }

  /** Day `doy` of the year that starts in March of year `y`. */
  function DateInYear(y: int, doy: nat): Date
    requires doy < 366
  {
    var mp := (5 * doy + 2) / 153;
    var d := doy - (153 * mp + 2) / 5 + 1;
    var m := if mp < 10 then mp + 3 else mp - 9;
    Date(if m <= 2 then y + 1 else y, m, d)
  }

  function YearOfEra(doe: int): int {
    (doe - doe / 1460 + doe / 36_524 - doe / 146_096) / 365
  }

  function DaysFromCivil(t: Date): int {
    var y := if t.month <= 2 then t.year - 1 else t.year;
    var era := TruncDiv(if y >= 0 then y else y - 399, 400);
    var yoe := y - era * 400;
    var mp := if t.month > 2 then t.month - 3 else t.month + 9;
    var doy := (153 * mp + 2) / 5 + t.day - 1;
    var doe := yoe * 365 + yoe / 4 - yoe / 100 + doy;
    era * 146_097 + doe - 719_468
  }

  // ---------- years of an era, counted from March ----------

  /** Days before year `y` of an era. */
  function YearStart(y: nat): nat { 365 * y + y / 4 - y / 100 }

  /** Days of year `y` of an era: its February falls in the following calendar year. */
  function YearLength(y: nat): nat { if IsLeap(y + 1) then 366 else 365 }

  lemma FloorDiv(a: int, b: int)
    requires b > 0
    ensures var q := TruncDiv(if a >= 0 then a else a - (b - 1), b);
            q * b <= a < q * b + b
  {
    if a < 0 {
      var n := b - 1 - a;
      var q := n / b;
      assert n == b * q + n % b;
      assert (-q) * b == -(b * q);
    } else {
      assert a == b * (a / b) + a % b;
      assert (a / b) * b == b * (a / b);
    }
  }

  /** Year `100c + 4q + t` of an era in centuries, leap cycles and single years. */
  lemma YearParts(c: nat, q: nat, t: nat)
    requires c <= 3 && q <= 24 && t <= 3
    ensures YearStart(100 * c + 4 * q + t) == 36_524 * c + 1461 * q + 365 * t
    ensures YearLength(100 * c + 4 * q + t) == if t == 3 && (q < 24 || c == 3) then 366 else 365
  {
    var y := 100 * c + 4 * q + t;
    assert y / 4 == 25 * c + q && y / 100 == c;
    assert (y + 1) % 4 == (t + 1) % 4;
    assert (y + 1) % 100 == (4 * q + t + 1) % 100;
  }

  lemma CenturyOfParts(c: nat, rest: nat)
    requires c <= 3 && rest <= 36_524 && (rest == 36_524 ==> c == 3)
    ensures (36_524 * c + rest) / 36_524 - (36_524 * c + rest) / 146_096 == c
  {
  }

  lemma YearOfParts(c: nat, q: nat, t: nat, doy: nat)
    requires c <= 3 && q <= 24 && t <= 3 && doy < YearLength(100 * c + 4 * q + t)
    ensures YearOfEra(36_524 * c + 1461 * q + 365 * t + doy) == 100 * c + 4 * q + t
  {
    YearParts(c, q, t);
    var rest := 1461 * q + 365 * t + doy;
    CenturyOfParts(c, rest);
    CycleOfParts(c, q, t, doy);
  }

  lemma CycleOfParts(c: nat, q: nat, t: nat, doy: nat)
    requires c <= 3 && q <= 24 && t <= 3 && doy <= 365 && (doy == 365 ==> t == 3)
    ensures var doe := 36_524 * c + 1461 * q + 365 * t + doy;
            (doe - doe / 1460 + c) / 365 == 100 * c + 4 * q + t
  {
    var doe := 36_524 * c + 1461 * q + 365 * t + doy;
    var e := 24 * c + q + 365 * t + doy;
    assert doe == 1460 * (25 * c + q) + e;
    assert doe / 1460 == 25 * c + q + e / 1460;
    assert 0 <= doy - e / 1460 < 365;
  }

  /** The year formula inverts the position of a day in its year. */
  lemma YearOfDay(y: nat, doy: nat)
    requires y <= 399 && doy < YearLength(y)
    ensures YearOfEra(YearStart(y) + doy) == y
    ensures YearStart(y) + doy < 146_097
  {
    var c, q, t := y / 100, y % 100 / 4, y % 4;
    assert y == 100 * c + 4 * q + t;
    YearParts(c, q, t);
    YearOfParts(c, q, t, doy);
  }

  /** Every day of an era lies in one of its years. */
  lemma DayInYear(doe: nat) returns (y: nat, doy: nat)
    requires doe < 146_097
    ensures y <= 399 && doy < YearLength(y) && doe == YearStart(y) + doy
  {
    var c := if doe / 36_524 < 3 then doe / 36_524 else 3;
    var r := doe - 36_524 * c;
    var q := r / 1461;
    var s := r - 1461 * q;
    var t := if s / 365 < 3 then s / 365 else 3;
    y, doy := 100 * c + 4 * q + t, s - 365 * t;
    YearParts(c, q, t);
  }

  lemma EraDay(z: int)
    ensures var era := TruncDiv(if z >= 0 then z else z - 146_096, 146_097);
            var doe := z - era * 146_097;
            var yoe := YearOfEra(doe);
            var doy := doe - (365 * yoe + yoe / 4 - yoe / 100);
            0 <= doe < 146_097 && 0 <= yoe <= 399 && 0 <= doy < YearLength(yoe)
  {
    FloorDiv(z, 146_097);
    var y, doy := DayInYear(z - TruncDiv(if z >= 0 then z else z - 146_096, 146_097) * 146_097);
    YearOfDay(y, doy);
  }

  lemma ModOfSum(x: int, m: nat, k: int)
    requires m > 0
    ensures (x * m + k) % m == k % m
  {
    var q, r := k / m, k % m;
    assert k == q * m + r;
    var q', r' := (x * m + k) / m, (x * m + k) % m;
    assert x * m + k == q' * m + r';
    Distribute(q' - x, q, m);
    Distribute(q', x, m);
    Distribute(q, q' - x, m);
    if q' - x > q {
      AtLeastOnce(q' - x - q, m);
    } else if q > q' - x {
      AtLeastOnce(q - (q' - x), m);
    }
  }

  lemma LeapInEra(era: int, k: int)
    ensures IsLeap(400 * era + k) == IsLeap(k)
  {
    ModOfSum(100 * era, 4, k);
    ModOfSum(4 * era, 100, k);
    ModOfSum(era, 400, k);
  }

  lemma DivUnique(a: int, b: nat, q: int)
    requires b > 0 && q * b <= a < q * b + b
    ensures TruncDiv(if a >= 0 then a else a - (b - 1), b) == q
  {
    var p := TruncDiv(if a >= 0 then a else a - (b - 1), b);
    assert p * b <= a < p * b + b by { FloorDiv(a, b); }
    Distribute(q, p, b);
    Distribute(p, q, b);
    if p < q {
      AtLeastOnce(q - p, b);
    } else if q < p {
      AtLeastOnce(p - q, b);
    }
  }

  // ---------- months of a year that starts in March ----------

  /** Days before month `mp`, counted from March as month 0. */
  function MonthStart(mp: nat): nat { (153 * mp + 2) / 5 }

  lemma MonthOfDay(doy: nat, mp: nat)
    requires doy < 366
    ensures (5 * doy + 2) / 153 <= 11
    ensures (5 * doy + 2) / 153 == mp <==> MonthStart(mp) <= doy < MonthStart(mp + 1)
  {
  }

  function CalendarMonth(mp: nat): nat
    requires mp <= 11
  {
    if mp < 10 then mp + 3 else mp - 9
  }

  function CalendarYear(y: int, mp: nat): int { if mp >= 10 then y + 1 else y }

  lemma MonthLengths(y: int, mp: nat)
    requires mp <= 11
    ensures mp < 11 ==> MonthStart(mp + 1) - MonthStart(mp) == DaysInMonth(y, CalendarMonth(mp))
    ensures mp == 11 ==> MonthStart(mp) == 337 && CalendarMonth(mp) == 2
  {
    if mp == 0 || mp == 1 || mp == 2 || mp == 3 || mp == 4 || mp == 5 {
    } else if mp == 6 || mp == 7 || mp == 8 || mp == 9 || mp == 10 {
    } else {
      assert mp == 11;
    }
  }

  // ---------- dates by era, year, month and day ----------

  /** Position of a date in the 400-year cycle: year `y` and month `mp` counted from March. */
  datatype Parts = Parts(era: int, y: nat, mp: nat, day: nat)

  predicate InCycle(p: Parts) {
    && p.y <= 399 && p.mp <= 11 && p.day >= 1
    && MonthStart(p.mp) + p.day - 1 < MonthStart(p.mp + 1)
    && MonthStart(p.mp) + p.day - 1 < YearLength(p.y)
  }

  function DayOf(p: Parts): int {
    p.era * 146_097 + (YearStart(p.y) + (MonthStart(p.mp) + p.day - 1)) - 719_468
  }

  function DateOf(p: Parts): Date
    requires p.mp <= 11
  {
    Date(CalendarYear(p.era * 400 + p.y, p.mp), CalendarMonth(p.mp), p.day)
  }

  lemma FromParts(p: Parts)
    requires InCycle(p)
    ensures CivilFromDays(DayOf(p)) == DateOf(p)
  {
    var doy := MonthStart(p.mp) + p.day - 1;
    var z, doe := DayOf(p) + 719_468, YearStart(p.y) + doy;
    YearOfDay(p.y, doy);
    assert z == p.era * 146_097 + doe;
    DivUnique(z, 146_097, p.era);
    MonthOfDay(doy, p.mp);
    Unfold(DayOf(p), z, p.era, doe, p.y, doy, p.mp);
  }

  lemma Unfold(day: int, z: int, era: int, doe: int, y: nat, doy: int, mp: nat)
    requires z == day + 719_468 && z == era * 146_097 + doe
    requires era == TruncDiv(if z >= 0 then z else z - 146_096, 146_097)
    requires y == YearOfEra(doe) && doe == YearStart(y) + doy && 0 <= doy < 366 && mp == (5 * doy + 2) / 153
    requires mp <= 11 && doy >= MonthStart(mp)
    ensures CivilFromDays(day) == Date(CalendarYear(era * 400 + y, mp), CalendarMonth(mp), doy - MonthStart(mp) + 1)
  {
    UnfoldMonth(era * 400 + y, doy, mp);
    assert CivilFromDays(day) == DateInYear(era * 400 + y, doy);
  }

  lemma UnfoldMonth(y: int, doy: nat, mp: nat)
    requires doy < 366 && mp == (5 * doy + 2) / 153 && mp <= 11 && doy >= MonthStart(mp)
    ensures DateInYear(y, doy) == Date(CalendarYear(y, mp), CalendarMonth(mp), doy - MonthStart(mp) + 1)
  {
  }

  lemma ToParts(p: Parts)
    requires InCycle(p)
    ensures DaysFromCivil(DateOf(p)) == DayOf(p)
  {
    DivUnique(p.era * 400 + p.y, 400, p.era);
  }

  lemma PartsAreValid(p: Parts)
    requires InCycle(p)
    ensures Valid(DateOf(p))
  {
    MonthLengths(CalendarYear(p.era * 400 + p.y, p.mp), p.mp);
    if p.mp == 11 {
      LeapInEra(p.era, p.y + 1);
      assert CalendarYear(p.era * 400 + p.y, p.mp) == 400 * p.era + (p.y + 1);
    }
  }

  lemma PartsOfDay(day: int) returns (p: Parts)
    ensures InCycle(p) && DayOf(p) == day
  {
    var z := day + 719_468;
    FloorDiv(z, 146_097);
    var era := TruncDiv(if z >= 0 then z else z - 146_096, 146_097);
    var y, doy := DayInYear(z - era * 146_097);
    var mp := (5 * doy + 2) / 153;
    MonthOfDay(doy, mp);
    p := Parts(era, y, mp, doy - MonthStart(mp) + 1);
  }

  lemma PartsOfDate(t: Date) returns (p: Parts)
    requires Valid(t)
    ensures InCycle(p) && DateOf(p) == t
  {
    var y := if t.month <= 2 then t.year - 1 else t.year;
    FloorDiv(y, 400);
    var era := TruncDiv(if y >= 0 then y else y - 399, 400);
    var mp := if t.month > 2 then t.month - 3 else t.month + 9;
    p := Parts(era, y - era * 400, mp, t.day);
    MonthLengths(t.year, mp);
    if mp == 11 {
      LeapInEra(era, p.y + 1);
      assert t.year == 400 * era + (p.y + 1);
    } else {
      assert MonthStart(mp + 1) <= 337;
    }
  }

  // ---------- the laws ----------

  /** Every day number has a valid date, and goes back to itself. */
  lemma DayRoundTrip(day: int)
    ensures Valid(CivilFromDays(day))
    ensures DaysFromCivil(CivilFromDays(day)) == day
  {
    var p := PartsOfDay(day);
    FromParts(p);
    ToParts(p);
    PartsAreValid(p);
  }

  /** Every valid date goes to a day number and back. */
  lemma DateRoundTrip(t: Date)
    requires Valid(t)
    ensures CivilFromDays(DaysFromCivil(t)) == t
  {
    var p := PartsOfDate(t);
    FromParts(p);
    ToParts(p);
  }

  lemma YearSuccessor(y: nat)
    requires y <= 399
    ensures y < 399 ==> YearStart(y + 1) == YearStart(y) + YearLength(y)
    ensures y == 399 ==> YearStart(y) + YearLength(y) == 146_097
  {
    assert (y + 1) / 4 == y / 4 + if (y + 1) % 4 == 0 then 1 else 0;
    assert (y + 1) / 100 == y / 100 + if (y + 1) % 100 == 0 then 1 else 0;
  }

  lemma NextIsValid(t: Date)
    requires Valid(t)
    ensures Valid(Next(t))
  {
  }

  /** The parts of the next day. */
  function NextParts(p: Parts, monthLength: nat): Parts {
    if p.day < monthLength then p.(day := p.day + 1)
    else if p.mp < 11 then Parts(p.era, p.y, p.mp + 1, 1)
    else if p.y < 399 then Parts(p.era, p.y + 1, 0, 1)
    else Parts(p.era + 1, 0, 0, 1)
  }

  lemma MonthLengthOf(p: Parts)
    requires InCycle(p)
    ensures var t := DateOf(p);
            DaysInMonth(t.year, t.month) ==
              if p.mp < 11 then MonthStart(p.mp + 1) - MonthStart(p.mp) else YearLength(p.y) - 337
  {
    MonthLengths(DateOf(p).year, p.mp);
    LeapInEra(p.era, p.y + 1);
    assert p.mp == 11 ==> DateOf(p).year == 400 * p.era + (p.y + 1);
  }

  lemma NextPartsDate(p: Parts, n: nat)
    requires InCycle(p) && n == DaysInMonth(DateOf(p).year, DateOf(p).month)
    ensures NextParts(p, n).mp <= 11 && DateOf(NextParts(p, n)) == Next(DateOf(p))
  {
    PartsAreValid(p);
  }

  lemma NextPartsDay(p: Parts, n: nat)
    requires InCycle(p)
    requires n == if p.mp < 11 then MonthStart(p.mp + 1) - MonthStart(p.mp) else YearLength(p.y) - 337
    ensures InCycle(NextParts(p, n)) && DayOf(NextParts(p, n)) == DayOf(p) + 1
  {
    YearSuccessor(p.y);
    MonthGap(p.mp);
    assert MonthStart(11) == 337 && MonthStart(0) == 0;
  }

  lemma MonthGap(mp: nat)
    requires mp <= 11
    ensures MonthStart(mp) + 28 <= MonthStart(mp + 1) && (mp < 11 ==> MonthStart(mp + 1) <= 337)
  {
  }

  lemma NextAddsOne(t: Date)
    requires Valid(t)
    ensures DaysFromCivil(Next(t)) == DaysFromCivil(t) + 1
  {
    var p := PartsOfDate(t);
    ToParts(p);
    var n := DaysInMonth(t.year, t.month);
    MonthLengthOf(p);
    NextPartsDate(p, n);
    NextPartsDay(p, n);
    ToParts(NextParts(p, n));
  }

  /** Consecutive day numbers are consecutive days of the calendar. */
  lemma DaysFollowCalendar(day: int)
    ensures CivilFromDays(day + 1) == Next(CivilFromDays(day))
  {
    DayRoundTrip(day);
    SuccessorOf(day, CivilFromDays(day));
  }

  lemma SuccessorOf(day: int, t: Date)
    requires Valid(t) && DaysFromCivil(t) == day
    ensures CivilFromDays(day + 1) == Next(t)
  {
    NextAddsOne(t);
    NextIsValid(t);
    RoundTripAt(Next(t), day + 1);
  }

  lemma RoundTripAt(t: Date, day: int)
    requires Valid(t) && DaysFromCivil(t) == day
    ensures CivilFromDays(day) == t
  {
    DateRoundTrip(t);
  }

  /** Counting starts on 1 January 1970. */
  lemma Epoch()
    ensures CivilFromDays(0) == Date(1970, 1, 1)
  {
    RoundTripAt(Date(1970, 1, 1), 0);
  }

  predicate Before(s: Date, t: Date) {
    || s.year < t.year
    || (s.year == t.year && (s.month < t.month || (s.month == t.month && s.day < t.day)))
  }

  lemma BeforeNext(s: Date, t: Date)
    requires Valid(t) && (s == t || Before(s, t))
    ensures Before(s, Next(t))
  {
  }

  /** Later days have later dates. */
  lemma {:induction false} DateOrder(a: int, b: int)
    requires a < b
    ensures Before(CivilFromDays(a), CivilFromDays(b))
    decreases b - a
  {
    var m := b - 1;
    if a < m { DateOrder(a, m); }
    DayRoundTrip(m);
    BeforeNext(CivilFromDays(a), CivilFromDays(m));
    DaysFollowCalendar(m);
    assert CivilFromDays(b) == CivilFromDays(m + 1);
  }
}
