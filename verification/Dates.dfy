/**
 Calendar arithmetic: days from dates (`epoch_from_ymd_hms` of src/cookie.rs) and dates from
 days (`epoch_to_httpdate` of src/cli.rs), over unbounded integers.
 */
module Dates {
  import opened Arithmetic

  // ---- the calendar, naively ---------------------------------------------------------------

  predicate Leap(y: int) {
    (y % 4 == 0 && y % 100 != 0) || y % 400 == 0
  }

  function YearLength(y: int): nat {
    if Leap(y) then 366 else 365
  }

  function MonthLength(y: int, m: int): nat {
    if m == 2 then (if Leap(y) then 29 else 28)
    else if m == 4 || m == 6 || m == 9 || m == 11 then 30
    else 31
  }

  /** Days of the years 0 .. y-1. */
  function DaysBeforeYear(y: nat): nat {
    if y == 0 then 0 else DaysBeforeYear(y - 1) + YearLength(y - 1)
  }

  /** Days of the months before `m` in year `y`. */
  function DaysBeforeMonth(y: int, m: nat): nat {
    if m <= 1 then 0 else DaysBeforeMonth(y, m - 1) + MonthLength(y, m - 1)
  }

  const EPOCH_DAY: nat := 719528

  /** Days since 1970-01-01, counted year by year and month by month. */
  function NaiveDays(y: nat, m: nat, d: nat): int {
    DaysBeforeYear(y) + DaysBeforeMonth(y, m) + d - 1 - EPOCH_DAY
  }

  predicate ValidDate(y: int, m: int, d: int) {
    1 <= m <= 12 && 1 <= d <= MonthLength(y, m)
  }

  // ---- the calendar as the source computes it -------------------------------------------------

  /** Rust's integer division rounds towards zero. */
  function TruncDiv(a: int, b: int): int
    requires b > 0
  {
    if a >= 0 then a / b else -((-a) / b)
  }

  function EraOf(y: int): int {
    TruncDiv(if y >= 0 then y else y - 399, 400)
  }

  /** Days since 1970-01-01 of a civil date (days_from_civil). */
  function DaysFromCivil(y: int, m: int, d: int): int {
    var year := if m <= 2 then y - 1 else y;
    var era := EraOf(year);
    var yoe := year - era * 400;
    var mp := if m > 2 then m - 3 else m + 9;
    var doy := (153 * mp + 2) / 5 + d - 1;
    var doe := yoe * 365 + yoe / 4 - yoe / 100 + doy;
    era * 146097 + doe - 719468
  }

  datatype Civil = Civil(y: int, m: int, d: int)

  function YearOfEra(doe: int): int {
    (doe - doe / 1460 + doe / 36524 - doe / 146096) / 365
  }

  /** The date of day `doy` of the year starting in March of year `yoe` of the era. */
  function CivilOf(era: int, yoe: int, doy: int): Civil {
    var mp := (5 * doy + 2) / 153;
    var d := doy - (153 * mp + 2) / 5 + 1;
    var m := if mp < 10 then mp + 3 else mp - 9;
    var y := yoe + era * 400;
    Civil(if m <= 2 then y + 1 else y, m, d)
  }

  /** The civil date of a day since 1970-01-01 (civil_from_days). */
  function CivilFromDays(days: int): Civil {
    var z := days + 719468;
    var era := TruncDiv(if z >= 0 then z else z - 146096, 146097);
    var doe := z - era * 146097;
    var yoe := YearOfEra(doe);
    CivilOf(era, yoe, doe - (365 * yoe + yoe / 4 - yoe / 100))
  }

  // ---- they agree ---------------------------------------------------------------------------------

  /** The trick in the era computation makes truncating division round down. */
  lemma EraRoundsDown(y: int)
    ensures EraOf(y) == y / 400
  {
  }

  /** Quotients of neighbouring numbers, given quotient and remainder. */
  lemma NextQuotient(x: int, k: int, q: int, r: int)
    requires k > 1 && x == k * q + r && 0 <= r < k
    ensures (x + k) / k == q + 1
    ensures (x + k - 1) / k == q + (if r == 0 then 0 else 1)
    ensures (x - 1) / k == q - (if r == 0 then 1 else 0)
    ensures x / k == q && x % k == r
  {
    assert k * (q + 1) == k * q + k && k * (q - 1) == k * q - k;
    DivUnique(x, k, q, r);
    DivUnique(x + k, k, q + 1, r);
    DivUnique(x + k - 1, k, if r == 0 then q else q + 1, if r == 0 then k - 1 else r - 1);
    DivUnique(x - 1, k, if r == 0 then q - 1 else q, if r == 0 then k - 1 else r - 1);
  }

  /** Days of the years 0 .. y-1 in closed form. */
  function YearDays(y: int): int {
    365 * y + (y + 3) / 4 - (y + 99) / 100 + (y + 399) / 400
  }

  /** A year number as four nested counts: eras, centuries, quads, years. */
  lemma YearParts(x: int) returns (e: int, c: int, b: int, a: int)
    ensures 0 <= c < 4 && 0 <= b < 25 && 0 <= a < 4 && x == 400 * e + 100 * c + 4 * b + a
    ensures Leap(x) <==> a == 0 && (b != 0 || c == 0)
    ensures x / 4 == 100 * e + 25 * c + b && x / 100 == 4 * e + c && x / 400 == e
    ensures (x + 3) / 4 == 100 * e + 25 * c + b + (if a == 0 then 0 else 1)
    ensures (x + 99) / 100 == 4 * e + c + (if a == 0 && b == 0 then 0 else 1)
    ensures (x + 399) / 400 == e + (if a == 0 && b == 0 && c == 0 then 0 else 1)
    ensures (x + 4) / 4 == 100 * e + 25 * c + b + 1 && (x + 100) / 100 == 4 * e + c + 1 && (x + 400) / 400 == e + 1
    ensures (x - 1) / 4 == 100 * e + 25 * c + b - (if a == 0 then 1 else 0)
    ensures (x - 1) / 100 == 4 * e + c - (if a == 0 && b == 0 then 1 else 0)
    ensures (x - 1) / 400 == e - (if a == 0 && b == 0 && c == 0 then 1 else 0)
  {
    e := x / 400;
    c := (x - 400 * e) / 100;
    b := (x - 400 * e - 100 * c) / 4;
    a := x - 400 * e - 100 * c - 4 * b;
    NextQuotient(x, 4, 100 * e + 25 * c + b, a);
    NextQuotient(x, 100, 4 * e + c, 4 * b + a);
    NextQuotient(x, 400, e, 100 * c + 4 * b + a);
  }

  lemma YearDaysStep(x: int)
    ensures YearDays(x + 1) == YearDays(x) + YearLength(x)
  {
    hide Leap;
    var e, c, b, a := YearParts(x);
  }

  lemma {:induction false} DaysBeforeYearClosed(y: nat)
    ensures DaysBeforeYear(y) == YearDays(y)
  {
    if y > 0 {
      DaysBeforeYearClosed(y - 1);
      YearDaysStep(y - 1);
    }
  }

  function MonthOffset(m: nat): nat
    requires 1 <= m <= 12
  {
    [0, 31, 59, 90, 120, 151, 181, 212, 243, 273, 304, 334][m - 1]
  }

  lemma {:induction false} DaysBeforeMonthClosed(y: int, m: nat)
    requires 1 <= m <= 12
    ensures DaysBeforeMonth(y, m) == MonthOffset(m) + (if m > 2 && Leap(y) then 1 else 0)
  {
    if m > 1 {
      DaysBeforeMonthClosed(y, m - 1);
    }
  }

  /** The linear formula of the source gives the month offsets counted from March. */
  lemma MarchOffsets(m: nat)
    requires 1 <= m <= 12
    ensures m > 2 ==> (153 * (m - 3) + 2) / 5 == MonthOffset(m) - 59
    ensures m <= 2 ==> (153 * (m + 9) + 2) / 5 == MonthOffset(m) + 306
  {
  }

  /** Days before the March that starts computational year `y`. */
  function MarchDays(y: int): int {
    365 * y + y / 4 - y / 100 + y / 400
  }

  lemma EraSum(y: int)
    ensures
      var era := EraOf(y);
      var yoe := y - era * 400;
      era * 146097 + (yoe * 365 + yoe / 4 - yoe / 100) == MarchDays(y) && 0 <= yoe < 400
  {
    EraRoundsDown(y);
    var e, c, b, a := YearParts(y);
    DivUnique(100 * c + 4 * b + a, 4, 25 * c + b, a);
    DivUnique(100 * c + 4 * b + a, 100, c, 4 * b + a);
  }

  lemma MarchForm(y: int, m: nat, d: int)
    requires 1 <= m <= 12
    ensures DaysFromCivil(y, m, d) ==
            (if m > 2 then MarchDays(y) + MonthOffset(m) - 59 else MarchDays(y - 1) + MonthOffset(m) + 306) + d - 1 - 719468
  {
    hide EraOf, MarchDays, MonthOffset;
    EraSum(if m <= 2 then y - 1 else y);
    MarchOffsets(m);
  }

  lemma MarchAndJanuary(y: int)
    ensures MarchDays(y - 1) + 366 == YearDays(y)
    ensures MarchDays(y) == YearDays(y) + (if Leap(y) then 0 else -1)
  {
    hide Leap;
    var e, c, b, a := YearParts(y);
  }

  /** The day count of the source is the naive one, for every date from year 0 on. */
  lemma CivilIsNaive(y: nat, m: nat, d: nat)
    requires 1 <= m <= 12
    ensures DaysFromCivil(y, m, d) == NaiveDays(y, m, d)
  {
    hide DaysFromCivil, Leap, DaysBeforeYear, DaysBeforeMonth, MonthOffset, MarchDays, YearDays;
    DaysBeforeYearClosed(y);
    DaysBeforeMonthClosed(y, m);
    MarchForm(y, m, d);
    MarchAndJanuary(y);
  }

  // ---- from a day to its date --------------------------------------------------------------------

  /** The year of the era, for a day `t` of quad `b` of century `c`. */
  lemma YearOfEraParts(c: int, b: int, t: int)
    requires 0 <= c <= 3 && 0 <= b <= 24 && 0 <= t <= 1460
    requires c == 3 || 1461 * b + t < 36524
    ensures YearOfEra(36524 * c + 1461 * b + t) == 100 * c + 4 * b + (if t < 1095 then t / 365 else 3)
  {
    var doe := 36524 * c + 1461 * b + t;
    var e := (24 * c + b + t) / 1460;
    assert doe == 1460 * (25 * c + b) + (24 * c + b + t);
    assert doe / 1460 == 25 * c + b + e;
    assert doe / 36524 - doe / 146096 == c;
    assert doe - doe / 1460 + c == 365 * (100 * c + 4 * b) + (t - e);
  }

  /** The day of the year it leaves is 0 .. 365, and 365 only before a leap day. */
  lemma YearOfEraCorrect(doe: int)
    requires 0 <= doe < 146097
    ensures
      var yoe := YearOfEra(doe);
      var doy := doe - (365 * yoe + yoe / 4 - yoe / 100);
      && 0 <= yoe < 400 && 0 <= doy <= 365
      && (doy == 365 ==> (yoe + 1) % 4 == 0 && ((yoe + 1) % 100 == 0 ==> yoe + 1 == 400))
  {
    hide YearOfEra;
    var c := if doe >= 36524 * 3 then 3 else doe / 36524;
    var r := doe - 36524 * c;
    var b := if r >= 1461 * 24 then 24 else r / 1461;
    var t := r - 1461 * b;
    YearOfEraParts(c, b, t);
    var a := if t < 1095 then t / 365 else 3;
    DivUnique(100 * c + 4 * b + a, 4, 25 * c + b, a);
    DivUnique(100 * c + 4 * b + a, 100, c, 4 * b + a);
    if a == 3 {
      DivUnique(100 * c + 4 * b + 4, 4, 25 * c + b + 1, 0);
      DivUnique(100 * c + 4 * b + 4, 100, if b == 24 then c + 1 else c, if b == 24 then 0 else 4 * b + 4);
    }
  }

  /** Month and day from the day of a year that starts in March. */
  lemma MonthOfDay(doy: int)
    requires 0 <= doy <= 365
    ensures
      var mp := (5 * doy + 2) / 153;
      var m := if mp < 10 then mp + 3 else mp - 9;
      var d := doy - (153 * mp + 2) / 5 + 1;
      && 0 <= mp <= 11 && 1 <= m <= 12 && d >= 1
      && d <= (if m == 2 then (if doy == 365 then 29 else 28) else MonthLength(0, m))
  {
    var mp := (5 * doy + 2) / 153;
    assert 153 * mp <= 5 * doy + 2 < 153 * mp + 153;
    assert mp == 0 || mp == 1 || mp == 2 || mp == 3 || mp == 4 || mp == 5
        || mp == 6 || mp == 7 || mp == 8 || mp == 9 || mp == 10 || mp == 11;
  }

  lemma EraOfDay(z: int)
    ensures TruncDiv(if z >= 0 then z else z - 146096, 146097) == z / 146097
  {
  }

  lemma LeapAfter(era: int, yoe: int)
    requires 0 <= yoe < 400 && (yoe + 1) % 4 == 0 && ((yoe + 1) % 100 == 0 ==> yoe + 1 == 400)
    ensures Leap(yoe + era * 400 + 1)
  {
    var y := yoe + era * 400 + 1;
    var q := (yoe + 1) / 4;
    DivUnique(y, 4, 100 * era + q, 0);
    if yoe + 1 == 400 {
      DivUnique(y, 400, era + 1, 0);
    } else {
      DivUnique(y, 100, 4 * era + (yoe + 1) / 100, (yoe + 1) % 100);
    }
  }

  /** Putting the parts of a civil date back together. */
  lemma CivilBack(era: int, yoe: int, mp: int, d: int)
    requires 0 <= yoe < 400 && 0 <= mp <= 11
    ensures
      var m := if mp < 10 then mp + 3 else mp - 9;
      var y := yoe + era * 400;
      DaysFromCivil(if m <= 2 then y + 1 else y, m, d)
      == era * 146097 + (yoe * 365 + yoe / 4 - yoe / 100) + (153 * mp + 2) / 5 + d - 1 - 719468
  {
    EraRoundsDown(yoe + era * 400);
    DivUnique(yoe + era * 400, 400, era, yoe);
  }

  lemma CivilOfCorrect(era: int, yoe: int, doy: int)
    requires era >= 0 && 0 <= yoe < 400 && 0 <= doy <= 365
    requires doy == 365 ==> (yoe + 1) % 4 == 0 && ((yoe + 1) % 100 == 0 ==> yoe + 1 == 400)
    ensures
      var c := CivilOf(era, yoe, doy);
      && ValidDate(c.y, c.m, c.d) && c.y >= 0
      && DaysFromCivil(c.y, c.m, c.d) == era * 146097 + (365 * yoe + yoe / 4 - yoe / 100) + doy - 719468
  {
    hide DaysFromCivil, Leap;
    MonthOfDay(doy);
    if doy == 365 {
      LeapAfter(era, yoe);
    }
    var mp := (5 * doy + 2) / 153;
    CivilBack(era, yoe, mp, doy - (153 * mp + 2) / 5 + 1);
  }

  /** The date the source computes for a day is valid and is the one whose naive day count is that day. */
  lemma CivilFromDaysCorrect(days: int)
    requires days >= -719468
    ensures
      var c := CivilFromDays(days);
      && ValidDate(c.y, c.m, c.d) && c.y >= 0
      && DaysFromCivil(c.y, c.m, c.d) == days == NaiveDays(c.y, c.m, c.d)
  {
    hide DaysFromCivil, YearOfEra, Leap, NaiveDays, TruncDiv, CivilOf, MonthLength;
    var z := days + 719468;
    EraOfDay(z);
    var era := z / 146097;
    var doe := z - era * 146097;
    YearOfEraCorrect(doe);
    var yoe := YearOfEra(doe);
    CivilOfCorrect(era, yoe, doe - (365 * yoe + yoe / 4 - yoe / 100));
    var c := CivilFromDays(days);
    CivilIsNaive(c.y, c.m, c.d);
  }
}
