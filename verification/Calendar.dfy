/** The proleptic Gregorian calendar arithmetic of core/src/time.c. */
module Calendar {

  /** C division truncates toward zero; Dafny's rounds so that the remainder is not negative. */
  function Div(a: int, b: int): int
    requires b > 0
  {
    if a >= 0 then a / b else -((-a) / b)
  }

  function Mod(a: int, b: int): int
    requires b > 0
  {
    a - Div(a, b) * b
  }

  datatype Date = Date(year: int, month: int, day: int)

  predicate LeapYear(year: int) {
    (Mod(year, 4) == 0 && Mod(year, 100) != 0) || Mod(year, 400) == 0
  }

  const DAYS: seq<int> := [31, 28, 31, 30, 31, 30, 31, 31, 30, 31, 30, 31]

  function DaysInMonth(year: int, month: int): int {
    if month < 1 || month > 12 then 0
    else DAYS[month - 1] + (if month == 2 && LeapYear(year) then 1 else 0)
  }

  /** A date of the calendar, in any year. */
  predicate Proper(d: Date) {
    1 <= d.month <= 12 && 1 <= d.day <= DaysInMonth(d.year, d.month)
  }

  function DaysFromCivil(d: Date): int {
    var year := if d.month <= 2 then d.year - 1 else d.year;
    var era := Div(if year >= 0 then year else year - 399, 400);
    var yoe := year - era * 400;
    var doy := Div(153 * (d.month + (if d.month > 2 then -3 else 9)) + 2, 5) + d.day - 1;
    var doe := yoe * 365 + Div(yoe, 4) - Div(yoe, 100) + doy;
    era * 146097 + doe - 719468
  }

  function YearOfEra(doe: int): int {
    Div(doe - Div(doe, 1460) + Div(doe, 36524) - Div(doe, 146096), 365)
  }

  function CivilInEra(era: int, doe: int): Date {
    var yoe := YearOfEra(doe);
    var doy := doe - (365 * yoe + Div(yoe, 4) - Div(yoe, 100));
    var mp := Div(5 * doy + 2, 153);
    var mm := mp + (if mp < 10 then 3 else -9);
    Date(yoe + era * 400 + (if mm <= 2 then 1 else 0), mm, doy - Div(153 * mp + 2, 5) + 1)
  }

  function Civil(n: int): Date {
    var z := n + 719468;
    var era := Div(if z >= 0 then z else z - 146096, 146097);
    CivilInEra(era, z - era * 146097)
  }

  method CivilFromDays(n: int) returns (year: int, month: int, day: int)
    ensures Date(year, month, day) == Civil(n)
  {
    hide Div;
    var z := n + 719468;
    var era := Div(if z >= 0 then z else z - 146096, 146097);
    var doe := z - era * 146097;
    var yoe := Div(doe - Div(doe, 1460) + Div(doe, 36524) - Div(doe, 146096), 365);
    var yy := yoe + era * 400;
    var doy := doe - (365 * yoe + Div(yoe, 4) - Div(yoe, 100));
    var mp := Div(5 * doy + 2, 153);
    var dd := doy - Div(153 * mp + 2, 5) + 1;
    var mm := mp + (if mp < 10 then 3 else -9);
    year := if mm <= 2 then yy + 1 else yy;
    month := mm;
    day := dd;
  }

  /** Days from the start of a 400-year era to the start of its year `y`; years start on the first of March. */
  function YearStart(y: int): int {
    365 * y + y / 4 - y / 100
  }

  /** Days from the first of March to the start of month `m`, March being month 0. */
  function MonthStart(m: int): int {
    (153 * m + 2) / 5
  }

  // ---------- The nested divisions ----------

  lemma DivNat(a: nat, b: int)
    requires b > 0
    ensures Div(a, b) == a / b
  {}

  lemma EraFloor(z: int)
    ensures Div(if z >= 0 then z else z - 146096, 146097) == z / 146097
  {}

  lemma EraFloorYear(y: int)
    ensures Div(if y >= 0 then y else y - 399, 400) == y / 400
  {}

  lemma LongCycles(c: int, r: int)
    requires 0 <= c < 4 && 0 <= r <= 36524 && (r == 36524 ==> c == 3)
    ensures var doe := 36524 * c + r;
            doe / 36524 == (if doe == 146096 then 4 else c) && doe / 146096 == (if doe == 146096 then 1 else 0)
  {}

  lemma ShortCycles(cycle: int, r: int)
    requires 0 <= r < 2 * 1460
    ensures (1460 * cycle + r) / 1460 == cycle + if r < 1460 then 0 else 1
  {}

  lemma YearsOf(y: int, r: int)
    requires 0 <= r < 365
    ensures (365 * y + r) / 365 == y
  {}

  /** A day of the era by century, 4-year cycle, year and day; the four divisions correct for exactly the leap days. */
  lemma YearOfEraAt(c: int, q: int, t: int, k: int)
    requires 0 <= c < 4 && 0 <= q < 25 && 0 <= t < 4 && 0 <= k <= 365 && (k == 365 ==> t == 3)
    requires q == 24 && t == 3 && k == 365 ==> c == 3
    ensures YearOfEra(36524 * c + 1461 * q + 365 * t + k) == 100 * c + 4 * q + t
  {
    var doe := 36524 * c + 1461 * q + 365 * t + k;
    var y, r := 100 * c + 4 * q + t, 24 * c + q + 365 * t + k;
    var extra := if r < 1460 then 0 else 1;
    hide Div;
    LongCycles(c, 1461 * q + 365 * t + k);
    ShortCycles(25 * c + q, r);
    DivNat(doe, 1460);
    DivNat(doe, 36524);
    DivNat(doe, 146096);
    DivNat(365 * y + (k - extra), 365);
    YearsOf(y, k - extra);
  }

  lemma YearStartAt(c: int, q: int, t: int)
    requires 0 <= c && 0 <= q < 25 && 0 <= t < 4
    ensures YearStart(100 * c + 4 * q + t) == 36524 * c + 1461 * q + 365 * t
  {
    var y := 100 * c + 4 * q + t;
    assert y / 4 == 25 * c + q;
    assert y / 100 == c;
  }

  /** Length of year `y` of an era, which ends with the February of the next calendar year. */
  function YearLength(y: int): int {
    if ((y + 1) % 4 == 0 && (y + 1) % 100 != 0) || (y + 1) % 400 == 0 then 366 else 365
  }

  /** Centuries, 4-year cycles and years of an era; only the last of each may have the extra day. */
  lemma SplitEra(doe: int) returns (c: int, q: int, t: int, k: int)
    requires 0 <= doe < 146097
    ensures 0 <= c < 4 && 0 <= q < 25 && 0 <= t < 4 && 0 <= k <= 365 && (k == 365 ==> t == 3)
    ensures q == 24 && t == 3 && k == 365 ==> c == 3
    ensures doe == 36524 * c + 1461 * q + 365 * t + k
  {
    c := if doe / 36524 < 4 then doe / 36524 else 3;
    var r := doe - 36524 * c;
    q := r / 1461;
    var s := r - 1461 * q;
    t := if s / 365 < 4 then s / 365 else 3;
    k := s - 365 * t;
  }

  lemma Mod4(q: int, y: int)
    ensures (q * 4 + y) % 4 == y % 4
  {}

  lemma Mod100(q: int, y: int)
    ensures (q * 100 + y) % 100 == y % 100
  {}

  lemma Mod400(q: int, y: int)
    ensures (q * 400 + y) % 400 == y % 400
  {}

  lemma LastOfCycle(c: int, q: int, t: int)
    requires 0 <= c < 4 && 0 <= q < 25 && 0 <= t < 4
    ensures (t + 1) % 4 == 0 <==> t == 3
    ensures (4 * q + t + 1) % 100 == 0 <==> t == 3 && q == 24
    ensures (100 * c + 4 * q + t + 1) % 400 == 0 <==> t == 3 && q == 24 && c == 3
  {}

  lemma YearLengthAt(c: int, q: int, t: int)
    requires 0 <= c < 4 && 0 <= q < 25 && 0 <= t < 4
    ensures YearLength(100 * c + 4 * q + t) == if t == 3 && (q == 24 ==> c == 3) then 366 else 365
  {
    Mod4(25 * c + q, t + 1);
    Mod100(c, 4 * q + t + 1);
    LastOfCycle(c, q, t);
  }

  lemma SplitYear(y: int) returns (c: int, q: int, t: int)
    requires 0 <= y < 400
    ensures 0 <= c < 4 && 0 <= q < 25 && 0 <= t < 4 && y == 100 * c + 4 * q + t
  {
    c, q, t := y / 100, y % 100 / 4, y % 4;
  }

  lemma YearOfEraUnique(y: int, doy: int)
    requires 0 <= y < 400 && 0 <= doy < YearLength(y)
    ensures YearOfEra(YearStart(y) + doy) == y && 0 <= YearStart(y) + doy < 146097
  {
    var c, q, t := SplitYear(y);
    hide YearOfEra, YearStart, YearLength;
    YearLengthAt(c, q, t);
    YearStartAt(c, q, t);
    YearOfEraAt(c, q, t, doy);
  }

  lemma YearOfEraCorrect(doe: int)
    requires 0 <= doe < 146097
    ensures var y := YearOfEra(doe); 0 <= y < 400 && 0 <= doe - YearStart(y) < YearLength(y)
  {
    hide YearOfEra, YearStart, YearLength;
    var c, q, t, k := SplitEra(doe);
    YearOfEraAt(c, q, t, k);
    YearStartAt(c, q, t);
    YearLengthAt(c, q, t);
  }

  lemma MonthUnique(m: int, doy: int)
    requires 0 <= m <= 11 && MonthStart(m) <= doy && (doy < MonthStart(m + 1) || (m == 11 && doy <= 365))
    ensures (5 * doy + 2) / 153 == m
  {}

  lemma MonthOf(doy: int)
    requires 0 <= doy <= 365
    ensures var m := (5 * doy + 2) / 153; 0 <= m <= 11 && MonthStart(m) <= doy < MonthStart(m + 1)
  {}

  lemma Divisible4(year: int)
    ensures Mod(year, 4) == 0 <==> year % 4 == 0
  {}

  lemma Divisible100(year: int)
    ensures Mod(year, 100) == 0 <==> year % 100 == 0
  {}

  lemma Divisible400(year: int)
    ensures Mod(year, 400) == 0 <==> year % 400 == 0
  {}

  /** The leap rule does not depend on how division rounds, also for years before the common era. */
  lemma LeapRule(year: int)
    ensures LeapYear(year) <==> (year % 4 == 0 && year % 100 != 0) || year % 400 == 0
  {
    hide Mod;
    Divisible4(year);
    Divisible100(year);
    Divisible400(year);
  }

  // ---------- Both conversions through (era, year of era, day of year) ----------

  /** Day number of day `doy` of year `y` of an era. */
  function DayOf(era: int, y: int, doy: int): int {
    era * 146097 + YearStart(y) + doy - 719468
  }

  function DateOf(era: int, y: int, m: int, dd: int): Date {
    Date(era * 400 + y + (if m >= 10 then 1 else 0), if m < 10 then m + 3 else m - 9, dd)
  }

  lemma DaysFromCivilOf(era: int, y: int, m: int, dd: int)
    requires 0 <= y < 400 && 0 <= m <= 11
    ensures DaysFromCivil(DateOf(era, y, m, dd)) == DayOf(era, y, MonthStart(m) + dd - 1)
  {
    hide Div;
    EraFloorYear(era * 400 + y);
    assert (era * 400 + y) / 400 == era;
    DivNat(y, 4);
    DivNat(y, 100);
    DivNat(153 * m + 2, 5);
  }

  lemma MonthStartIsNat(m: nat)
    ensures MonthStart(m) >= 0
  {}

  lemma DivisionsAt(y: int, m: int, doy: int)
    requires 0 <= y < 400 && 0 <= m <= 11 && MonthStart(m) <= doy < YearLength(y) && (m < 11 ==> doy < MonthStart(m + 1))
    ensures 365 * y + Div(y, 4) - Div(y, 100) == YearStart(y)
    ensures Div(5 * doy + 2, 153) == m && Div(153 * m + 2, 5) == MonthStart(m)
  {
    MonthUnique(m, doy);
    DivNat(y, 4);
    DivNat(y, 100);
    DivNat(5 * doy + 2, 153);
    DivNat(153 * m + 2, 5);
  }

  lemma DateFields(era: int, y: int, m: int, dd: int)
    ensures DateOf(era, y, m, dd) == Date(era * 400 + y + (if m >= 10 then 1 else 0), if m < 10 then m + 3 else m - 9, dd)
  {}

  lemma CivilInEraOf(era: int, y: int, m: int, dd: int)
    requires 0 <= y < 400 && 0 <= m <= 11 && 1 <= dd
    requires MonthStart(m) + dd - 1 < YearLength(y) && (m < 11 ==> MonthStart(m) + dd - 1 < MonthStart(m + 1))
    ensures CivilInEra(era, YearStart(y) + MonthStart(m) + dd - 1) == DateOf(era, y, m, dd)
  {
    hide YearOfEra, Div, YearLength, DateOf, YearStart, MonthStart;
    MonthStartIsNat(m);
    var doy := MonthStart(m) + dd - 1;
    YearOfEraUnique(y, doy);
    DivisionsAt(y, m, doy);
    DateFields(era, y, m, dd);
    assert YearOfEra(YearStart(y) + MonthStart(m) + dd - 1) == y;
  }

  lemma EraOf(era: int, doe: int)
    requires 0 <= doe < 146097
    ensures var z := era * 146097 + doe; Div(if z >= 0 then z else z - 146096, 146097) == era
  {
    EraFloor(era * 146097 + doe);
  }

  lemma CivilAt(era: int, doe: int)
    requires 0 <= doe < 146097
    ensures Civil(era * 146097 + doe - 719468) == CivilInEra(era, doe)
  {
    hide Div, CivilInEra;
    EraOf(era, doe);
  }

  lemma DayAt(era: int, y: int, doy: int)
    ensures DayOf(era, y, doy) == era * 146097 + (YearStart(y) + doy) - 719468
  {}

  lemma CivilOf(era: int, y: int, m: int, dd: int)
    requires 0 <= y < 400 && 0 <= m <= 11 && 1 <= dd
    requires MonthStart(m) + dd - 1 < YearLength(y) && (m < 11 ==> MonthStart(m) + dd - 1 < MonthStart(m + 1))
    ensures Civil(DayOf(era, y, MonthStart(m) + dd - 1)) == DateOf(era, y, m, dd)
  {
    hide *;
    MonthStartIsNat(m);
    YearOfEraUnique(y, MonthStart(m) + dd - 1);
    CivilInEraOf(era, y, m, dd);
    CivilAt(era, YearStart(y) + MonthStart(m) + dd - 1);
    DayAt(era, y, MonthStart(m) + dd - 1);
  }

  lemma InnerMonthLength(m: int)
    requires 0 <= m < 11
    ensures DAYS[(m + 2) % 12] == MonthStart(m + 1) - MonthStart(m)
  {}

  lemma LeapInEra(era: int, y: int)
    ensures (era * 400 + y) % 4 == y % 4 && (era * 400 + y) % 100 == y % 100 && (era * 400 + y) % 400 == y % 400
  {
    Mod4(era * 100, y);
    Mod100(era * 4, y);
    Mod400(era, y);
  }

  /** Length of month `m` of year `y` of any era. */
  lemma MonthLength(era: int, y: int, m: int)
    requires 0 <= y < 400 && 0 <= m <= 11
    ensures var d := DateOf(era, y, m, 1);
            DaysInMonth(d.year, d.month) ==
            if m < 11 then MonthStart(m + 1) - MonthStart(m) else YearLength(y) - MonthStart(11)
  {
    var d := DateOf(era, y, m, 1);
    if m < 11 {
      InnerMonthLength(m);
    } else {
      LeapRule(d.year);
      LeapInEra(era, y + 1);
    }
  }

  lemma Decompose(n: int) returns (era: int, y: int, m: int, dd: int)
    ensures 0 <= y < 400 && 0 <= m <= 11 && 1 <= dd
    ensures n == DayOf(era, y, MonthStart(m) + dd - 1)
    ensures MonthStart(m) + dd - 1 < YearLength(y) && (m < 11 ==> MonthStart(m) + dd - 1 < MonthStart(m + 1))
  {
    var z := n + 719468;
    era := z / 146097;
    var doe := z % 146097;
    YearOfEraCorrect(doe);
    y := YearOfEra(doe);
    var doy := doe - YearStart(y);
    MonthOf(doy);
    m := (5 * doy + 2) / 153;
    dd := doy - MonthStart(m) + 1;
  }

  lemma DecomposeDate(d: Date) returns (era: int, y: int, m: int)
    requires 1 <= d.month <= 12
    ensures 0 <= y < 400 && 0 <= m <= 11 && d == DateOf(era, y, m, d.day)
  {
    m := if d.month > 2 then d.month - 3 else d.month + 9;
    var year := if d.month <= 2 then d.year - 1 else d.year;
    era := year / 400;
    y := year % 400;
  }

  // ---------- Main results ----------

  /** Every day number is the number of the date it converts to, and that date is in the calendar. */
  lemma DaysOfCivil(n: int)
    ensures Proper(Civil(n)) && DaysFromCivil(Civil(n)) == n
  {
    hide Civil, DaysFromCivil, DaysInMonth, YearStart, YearLength, MonthStart, DateOf;
    var era, y, m, dd := Decompose(n);
    CivilOf(era, y, m, dd);
    DaysFromCivilOf(era, y, m, dd);
    MonthLength(era, y, m);
    DateFields(era, y, m, 1);
    DateFields(era, y, m, dd);
  }

  /** Every calendar date is the date of its day number. */
  lemma CivilOfDays(d: Date)
    requires Proper(d)
    ensures Civil(DaysFromCivil(d)) == d
  {
    var era, y, m := DecomposeDate(d);
    DaysFromCivilOf(era, y, m, d.day);
    MonthLength(era, y, m);
    CivilOf(era, y, m, d.day);
  }

  /** The day after, by the length of the month. */
  function Next(d: Date): Date {
    if d.day < DaysInMonth(d.year, d.month) then d.(day := d.day + 1)
    else if d.month < 12 then Date(d.year, d.month + 1, 1)
    else Date(d.year + 1, 1, 1)
  }

  lemma NextProper(d: Date)
    requires Proper(d)
    ensures Proper(Next(d)) && 1 <= d.month <= 12 && 1 <= d.day <= DaysInMonth(d.year, d.month)
  {}

  lemma NextOf(era: int, y: int, m: int, dd: int)
    requires 0 <= m <= 11
    ensures var d := DateOf(era, y, m, dd);
            Next(d) ==
            if dd < DaysInMonth(d.year, d.month) then DateOf(era, y, m, dd + 1)
            else if m < 11 then DateOf(era, y, m + 1, 1)
            else Date(era * 400 + y + 1, 3, 1)
  {
    hide DaysInMonth;
  }

  lemma DayStep(era: int, y: int, doy: int)
    ensures DayOf(era, y, doy + 1) == DayOf(era, y, doy) + 1
  {}

  lemma YearStartNext(y: int)
    requires 0 <= y < 400
    ensures YearStart(y) + YearLength(y) == (if y < 399 then YearStart(y + 1) else 146097)
    ensures YearStart(0) == 0
  {
    assert YearStart(0) == 0;
    var c, q, t := SplitYear(y);
    hide YearStart, YearLength;
    YearLengthAt(c, q, t);
    YearStartAt(c, q, t);
    if t < 3 {
      YearStartAt(c, q, t + 1);
    } else if q < 24 {
      YearStartAt(c, q + 1, 0);
    } else if c < 3 {
      YearStartAt(c + 1, 0, 0);
    }
  }

  /** From the last day of February into the next year of the era, or the next era. */
  lemma MarchFirst(era: int, y: int)
    requires 0 <= y < 400
    ensures DaysFromCivil(Date(era * 400 + y + 1, 3, 1)) == DayOf(era, y, YearLength(y))
  {
    hide DaysFromCivil, YearStart, YearLength;
    YearStartNext(y);
    if y < 399 {
      DaysFromCivilOf(era, y + 1, 0, 1);
    } else {
      DaysFromCivilOf(era + 1, 0, 0, 1);
    }
  }

  lemma NextNumber(era: int, y: int, m: int, dd: int)
    requires 0 <= y < 400 && 0 <= m <= 11
    requires var d := DateOf(era, y, m, dd); dd <= DaysInMonth(d.year, d.month)
    requires var d := DateOf(era, y, m, dd);
             DaysInMonth(d.year, d.month) ==
             if m < 11 then MonthStart(m + 1) - MonthStart(m) else YearLength(y) - MonthStart(11)
    ensures var d := DateOf(era, y, m, dd); DaysFromCivil(Next(d)) == DaysFromCivil(d) + 1
  {
    hide *;
    var d := DateOf(era, y, m, dd);
    DaysFromCivilOf(era, y, m, dd);
    NextOf(era, y, m, dd);
    DayStep(era, y, MonthStart(m) + dd - 1);
    if dd < DaysInMonth(d.year, d.month) {
      DaysFromCivilOf(era, y, m, dd + 1);
    } else if m < 11 {
      DaysFromCivilOf(era, y, m + 1, 1);
    } else {
      MarchFirst(era, y);
    }
  }

  lemma NextIsOneDayLater(d: Date)
    requires Proper(d)
    ensures Proper(Next(d)) && DaysFromCivil(Next(d)) == DaysFromCivil(d) + 1
  {
    hide *;
    NextProper(d);
    var era, y, m := DecomposeDate(d);
    DateFields(era, y, m, 1);
    DateFields(era, y, m, d.day);
    MonthLength(era, y, m);
    NextNumber(era, y, m, d.day);
  }

  /** Consecutive day numbers are consecutive dates, for all integers. */
  lemma CivilSuccessor(n: int)
    ensures Civil(n + 1) == Next(Civil(n))
  {
    hide Civil, DaysFromCivil, Next, Proper;
    DaysOfCivil(n);
    NextIsOneDayLater(Civil(n));
    CivilOfDays(Next(Civil(n)));
  }

  /** Day 0 is the Unix epoch, which with the successor rule fixes the whole calendar. */
  lemma Epoch()
    ensures Civil(0) == Date(1970, 1, 1)
  {
    hide Civil, YearOfEra;
    CivilOf(4, 369, 10, 1);
  }

  /** In the range of 32-bit day offsets the year fits the source's int. */
  lemma YearFits(n: int)
    requires -0x1_0000_0000 <= n <= 0x1_0000_0000
    ensures -0x8000_0000 <= Civil(n).year < 0x8000_0000
  {
    var era, y, m, dd := Decompose(n);
    CivilOf(era, y, m, dd);
  }

  // ---------- ct_datetime_add_days ----------

  predicate ValidDate(d: Date) {
    1 <= d.year <= 9999 && 1 <= d.month <= 12 && 1 <= d.day <= DaysInMonth(d.year, d.month)
  }

  datatype Shifted = Moved(date: Date) | Rejected

  function Shift(d: Date, days: int): Shifted {
    if !ValidDate(d) then Rejected
    else
      var e := Civil(DaysFromCivil(d) + days);
      if e.year < 1 || e.year > 9999 then Rejected else Moved(e)
  }

  /** A shift moves the date by as many calendar days as asked, and fails exactly when it starts from no date of the
      years 1 to 9999 or would not end at one. */
  lemma ShiftMoves(d: Date, days: int)
    ensures Shift(d, days).Moved? ==>
              var e := Shift(d, days).date;
              Proper(e) && 1 <= e.year <= 9999 && DaysFromCivil(e) == DaysFromCivil(d) + days
    ensures Shift(d, days).Moved? <==>
            && Proper(d) && 1 <= d.year <= 9999
            && exists e :: Proper(e) && 1 <= e.year <= 9999 && DaysFromCivil(e) == DaysFromCivil(d) + days
  {
    hide Civil, DaysFromCivil, DaysInMonth;
    DaysOfCivil(DaysFromCivil(d) + days);
    forall e | Proper(e) && 1 <= e.year <= 9999 && DaysFromCivil(e) == DaysFromCivil(d) + days
      ensures Proper(d) && 1 <= d.year <= 9999 ==> Shift(d, days).Moved?
    {
      CivilOfDays(e);
    }
  }

  /** Shifts within the range compose by addition and undo each other. */
  lemma ShiftsCompose(d: Date, a: int, b: int)
    requires Shift(d, a).Moved?
    ensures Shift(Shift(d, a).date, b) == Shift(d, a + b)
    ensures Shift(Shift(d, a).date, -a) == Moved(d)
  {
    hide Civil, DaysFromCivil, DaysInMonth;
    ShiftMoves(d, a);
    CivilOfDays(d);
  }

  class DateTime {
    var year: int
    var month: int
    var day: int
    var hour: int
    var min: int
    var sec: int
    var ms: int

    constructor (y: int, mo: int, d: int, h: int, mi: int, s: int, milli: int)
      ensures (year, month, day, hour, min, sec, ms) == (y, mo, d, h, mi, s, milli)
    {
      year, month, day, hour, min, sec, ms := y, mo, d, h, mi, s, milli;
    }

    function Day(): Date
      reads this
    {
      Date(year, month, day)
    }

    predicate ValidTime()
      reads this
    {
      0 <= hour <= 23 && 0 <= min <= 59 && 0 <= sec <= 60 && 0 <= ms <= 999
    }

    method AddDays(days: int) returns (ok: bool)
      modifies this`year, this`month, this`day
      ensures ok == (old(0 <= hour <= 23 && 0 <= min <= 59 && 0 <= sec <= 60 && 0 <= ms <= 999)
                     && Shift(old(Day()), days).Moved?)
      ensures Day() == if ok then Shift(old(Day()), days).date else old(Day())
      ensures ok ==> Proper(Day()) && 1 <= year <= 9999 && DaysFromCivil(Day()) == DaysFromCivil(old(Day())) + days
    {
      hide DaysFromCivil, Civil, DaysInMonth;
      ShiftMoves(Day(), days);
      if !ValidDate(Day()) || !ValidTime() {
        return false;
      }
      var shifted := DaysFromCivil(Day()) + days;
      var y, m, d := CivilFromDays(shifted);
      if y < 1 || y > 9999 {
        return false;
      }
      year, month, day := y, m, d;
      return true;
    }
  }
}
