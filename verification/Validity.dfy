/**
 * Validity of a quote (src/application/quote-v2/validity.ts): civil dates of the issuer zone, the
 * calendar arithmetic on them, and the instant at which a quote stops being valid.
 */
module Validity {
  import opened Wrappers
  import Rows
  import Expiry

  // ---------- calendar ----------

  datatype Date = Date(year: nat, month: nat, day: nat)

  predicate IsLeap(y: int) { y % 4 == 0 && (y % 100 != 0 || y % 400 == 0) }

  function DaysInYear(y: int): pos { if IsLeap(y) then 366 else 365 }

  function DaysInMonth(y: int, m: nat): pos {
    if m == 2 then (if IsLeap(y) then 29 else 28)
    else if m == 4 || m == 6 || m == 9 || m == 11 then 30
    else 31
  }

  predicate ValidDate(d: Date) { 1 <= d.month <= 12 && 1 <= d.day <= DaysInMonth(d.year, d.month) }

  predicate Less(a: Date, b: Date) {
    a.year < b.year || (a.year == b.year && (a.month < b.month || (a.month == b.month && a.day < b.day)))
  }

  predicate AtMost(a: Date, b: Date) { !Less(b, a) }

  const FIRST_DAY: int := -719_528

  /** Days from 1970-01-01 to 1 January of a year. */
  function YearStart(y: nat): int {
    if y == 0 then FIRST_DAY else YearStart(y - 1) + DaysInYear(y - 1)
  }

  lemma Every4(y: int)
    ensures (y + 1 - 1969) / 4 == (y - 1969) / 4 + if y % 4 == 0 then 1 else 0
  {
  }

  lemma Every100(y: int)
    ensures (y + 1 - 1901) / 100 == (y - 1901) / 100 + if y % 100 == 0 then 1 else 0
  {
  }

  lemma Every400(y: int)
    ensures (y + 1 - 1601) / 400 == (y - 1601) / 400 + if y % 400 == 0 then 1 else 0
  {
  }

  lemma CenturiesAreFourths(y: int)
    ensures y % 100 == 0 ==> y % 4 == 0
    ensures y % 400 == 0 ==> y % 100 == 0
  {
    assert y == 100 * (y / 100) + y % 100 && y == 400 * (y / 400) + y % 400;
    if y % 100 == 0 { assert y == 4 * (25 * (y / 100)); }
    if y % 400 == 0 { assert y == 100 * (4 * (y / 400)); }
  }

  lemma LeapDays(y: int)
    ensures DaysInYear(y) == 365 + (if y % 4 == 0 then 1 else 0) - (if y % 100 == 0 then 1 else 0) + if y % 400 == 0 then 1 else 0
  {
    CenturiesAreFourths(y);
  }

  /** The closed form of ECMAScript's DayFromYear; in particular 1970 starts at day 0. */
  lemma {:induction false} YearStartClosedForm(y: nat)
    ensures YearStart(y) == 365 * (y - 1970) + (y - 1969) / 4 - (y - 1901) / 100 + (y - 1601) / 400
    decreases y
  {
    if y > 0 {
      YearStartClosedForm(y - 1);
      Every4(y - 1);
      Every100(y - 1);
      Every400(y - 1);
      LeapDays(y - 1);
    }
  }

  /** Days of the months before month m. */
  function DaysBefore(y: int, m: nat): nat {
    if m <= 1 then 0 else DaysBefore(y, m - 1) + DaysInMonth(y, m - 1)
  }

  function DayNumber(d: Date): int { YearStart(d.year) + DaysBefore(d.year, d.month) + d.day - 1 }


  lemma {:induction false} YearsGrow(a: nat, b: nat)
    requires a <= b
    ensures YearStart(a) + 365 * (b - a) <= YearStart(b)
    decreases b - a
  {
    if a < b {
      YearsGrow(a, b - 1);
    }
  }

  lemma YearIsTwelveMonths(y: int)
    ensures DaysBefore(y, 12) + DaysInMonth(y, 12) == DaysInYear(y)
  {
    assert DaysBefore(y, 3) == DaysBefore(y, 1) + 31 + DaysInMonth(y, 2);
    assert DaysBefore(y, 5) == DaysBefore(y, 3) + 61;
    assert DaysBefore(y, 7) == DaysBefore(y, 5) + 61;
    assert DaysBefore(y, 9) == DaysBefore(y, 7) + 62;
    assert DaysBefore(y, 11) == DaysBefore(y, 9) + 61;
    assert DaysBefore(y, 12) == DaysBefore(y, 11) + 30;
  }

  /** Where the months start in a common year, one day later after February in a leap year. */
  lemma MonthStarts(y: int, m: nat)
    requires 1 <= m <= 12
    ensures DaysBefore(y, m) == [0, 31, 59, 90, 120, 151, 181, 212, 243, 273, 304, 334][m - 1] + if m > 2 && DaysInYear(y) == 366 then 1 else 0
  {
    if m > 1 { MonthStarts(y, m - 1); }
  }

  lemma {:induction false} MonthsGrow(y: int, a: nat, b: nat)
    requires 1 <= a < b
    ensures DaysBefore(y, a) + DaysInMonth(y, a) <= DaysBefore(y, b)
    decreases b - a
  {
    if a + 1 < b { MonthsGrow(y, a, b - 1); }
  }

  lemma DayOfYearIsBounded(d: Date)
    requires ValidDate(d)
    ensures YearStart(d.year) <= DayNumber(d) < YearStart(d.year + 1)
  {
    YearIsTwelveMonths(d.year);
    if d.month < 12 { MonthsGrow(d.year, d.month, 12); }
  }

  /** Day numbers order dates as the calendar does. */
  lemma DayNumbersAreOrdered(a: Date, b: Date)
    requires ValidDate(a) && ValidDate(b)
    ensures Less(a, b) <==> DayNumber(a) < DayNumber(b)
    ensures DayNumber(a) == DayNumber(b) <==> a == b
  {
    if Less(a, b) { EarlierIsSmaller(a, b); } else if Less(b, a) { EarlierIsSmaller(b, a); }
  }

  lemma EarlierIsSmaller(a: Date, b: Date)
    requires ValidDate(a) && ValidDate(b) && Less(a, b)
    ensures DayNumber(a) < DayNumber(b)
  {
    DayOfYearIsBounded(a);
    DayOfYearIsBounded(b);
    if a.year < b.year { YearsGrow(a.year + 1, b.year); }
    else if a.month < b.month { MonthsGrow(a.year, a.month, b.month); }
  }

  // ---------- addDays ----------

  /** The year of a day number: the last one that starts no later. */
  function YearFrom(n: int, y: nat): (r: nat)
    requires YearStart(y) <= n
    ensures y <= r && YearStart(r) <= n < YearStart(r + 1)
    decreases n - YearStart(y)
  {
    if YearStart(y + 1) <= n then YearFrom(n, y + 1) else y
  }

  function MonthFrom(y: nat, rest: nat, m: nat): (r: nat)
    requires 1 <= m <= 12 && DaysBefore(y, m) <= rest < DaysInYear(y)
    ensures m <= r <= 12 && DaysBefore(y, r) <= rest < DaysBefore(y, r) + DaysInMonth(y, r)
    decreases 12 - m
  {
    YearIsTwelveMonths(y);
    if m < 12 && DaysBefore(y, m + 1) <= rest then MonthFrom(y, rest, m + 1) else m
  }

  function FromDayNumber(n: int): (d: Date)
    requires FIRST_DAY <= n
    ensures ValidDate(d) && DayNumber(d) == n
  {
    var y := YearFrom(n, 0);
    var rest := n - YearStart(y);
    var m := MonthFrom(y, rest, 1);
    Date(y, m, rest - DaysBefore(y, m) + 1)
  }

  lemma DayNumbersStart(d: Date)
    requires ValidDate(d)
    ensures FIRST_DAY <= DayNumber(d)
  {
    DayOfYearIsBounded(d);
    YearsGrow(0, d.year);
  }

  /** setUTCDate(getUTCDate() + days) on midnight UTC. */
  function AddDays(d: Date, days: nat): (r: Date)
    requires ValidDate(d)
    ensures ValidDate(r) && DayNumber(r) == DayNumber(d) + days
  {
    DayNumbersStart(d);
    FromDayNumber(DayNumber(d) + days)
  }

  /** The next date, by the rules of the calendar. */
  function NextDate(d: Date): Date
    requires ValidDate(d)
  {
    if d.day < DaysInMonth(d.year, d.month) then d.(day := d.day + 1)
    else if d.month < 12 then Date(d.year, d.month + 1, 1)
    else Date(d.year + 1, 1, 1)
  }

  function DatesLater(d: Date, days: nat): (r: Date)
    requires ValidDate(d)
    ensures ValidDate(r)
  {
    if days == 0 then d else NextDate(DatesLater(d, days - 1))
  }

  lemma NextIsOneDay(d: Date)
    requires ValidDate(d)
    ensures ValidDate(NextDate(d)) && DayNumber(NextDate(d)) == DayNumber(d) + 1
  {
    if d.day == DaysInMonth(d.year, d.month) {
      if d.month < 12 { NextMonth(d.year, d.month); } else { NextYear(d.year); }
    }
  }

  lemma NextMonth(y: nat, m: nat)
    requires 1 <= m < 12
    ensures DaysBefore(y, m + 1) == DaysBefore(y, m) + DaysInMonth(y, m)
  {
  }

  lemma NextYear(y: nat)
    ensures YearStart(y + 1) + DaysBefore(y + 1, 1) == YearStart(y) + DaysBefore(y, 12) + DaysInMonth(y, 12)
  {
    YearIsTwelveMonths(y);
  }

  /** Adding days walks the calendar, over month ends and leap years alike. */
  lemma {:induction false} AddDaysWalksTheCalendar(d: Date, days: nat)
    requires ValidDate(d)
    ensures AddDays(d, days) == DatesLater(d, days)
    decreases days
  {
    if days == 0 {
      DayNumbersAreOrdered(AddDays(d, 0), d);
    } else {
      AddDaysWalksTheCalendar(d, days - 1);
      NextIsOneDay(DatesLater(d, days - 1));
      DayNumbersAreOrdered(AddDays(d, days), DatesLater(d, days));
    }
  }

  // ---------- dates as text ----------

  const DASH: nat := 45

  function Pair(x: nat): seq<nat> { [x / 10, x % 10] }

  /** The service compares dates as YYYY-MM-DD text. */
  function Text(d: Date): seq<nat> {
    Pair(d.year / 100) + (Pair(d.year % 100) + ([DASH] + (Pair(d.month) + ([DASH] + Pair(d.day)))))
  }

  /** Code-unit order of equally long texts. */
  predicate TextLess(a: seq<nat>, b: seq<nat>)
    requires |a| == |b|
  {
    |a| > 0 && (a[0] < b[0] || (a[0] == b[0] && TextLess(a[1..], b[1..])))
  }

  lemma TextLessSplits(a: seq<nat>, b: seq<nat>, c: seq<nat>, d: seq<nat>)
    requires |a| == |b| && |c| == |d|
    ensures TextLess(a + c, b + d) <==> TextLess(a, b) || (a == b && TextLess(c, d))
    decreases |a|
  {
    if a == [] {
      assert a + c == c && b + d == d;
    } else {
      assert (a + c)[1..] == a[1..] + c && (b + d)[1..] == b[1..] + d;
      TextLessSplits(a[1..], b[1..], c, d);
      assert a == b <==> a[0] == b[0] && a[1..] == b[1..];
    }
  }

  lemma PairsAreOrdered(x: nat, y: nat)
    ensures TextLess(Pair(x), Pair(y)) <==> x < y
    ensures Pair(x) == Pair(y) <==> x == y
  {
    assert Pair(x)[1..] == [x % 10] && Pair(y)[1..] == [y % 10];
    assert TextLess([x % 10], [y % 10]) <==> x % 10 < y % 10;
    assert x == x / 10 * 10 + x % 10 && y == y / 10 * 10 + y % 10;
    if Pair(x) == Pair(y) { assert Pair(x)[0] == Pair(y)[0] && Pair(x)[1] == Pair(y)[1]; }
  }

  /** After equal first parts the rest decides. */
  lemma PairThenRest(x: nat, y: nat, c: seq<nat>, d: seq<nat>)
    requires |c| == |d|
    ensures TextLess(Pair(x) + c, Pair(y) + d) <==> x < y || (x == y && TextLess(c, d))
  {
    TextLessSplits(Pair(x), Pair(y), c, d);
    PairsAreOrdered(x, y);
  }

  lemma DashThenRest(c: seq<nat>, d: seq<nat>)
    requires |c| == |d|
    ensures TextLess([DASH] + c, [DASH] + d) <==> TextLess(c, d)
  {
    assert ([DASH] + c)[1..] == c && ([DASH] + d)[1..] == d;
  }

  /** Comparing the texts compares the dates. */
  lemma TextOrderIsDateOrder(a: Date, b: Date)
    ensures TextLess(Text(a), Text(b)) <==> Less(a, b)
  {
    var (a3, b3) := ([DASH] + Pair(a.day), [DASH] + Pair(b.day));
    var (a2, b2) := ([DASH] + (Pair(a.month) + a3), [DASH] + (Pair(b.month) + b3));
    PairsAreOrdered(a.day, b.day);
    DashThenRest(Pair(a.day), Pair(b.day));
    PairThenRest(a.month, b.month, a3, b3);
    DashThenRest(Pair(a.month) + a3, Pair(b.month) + b3);
    PairThenRest(a.year % 100, b.year % 100, a2, b2);
    PairThenRest(a.year / 100, b.year / 100, Pair(a.year % 100) + a2, Pair(b.year % 100) + b2);
  }

  // ---------- the boundary ----------

  const DAY_MS := 86_400_000
  const WINDOW_MS := 14 * 3_600_000

  function UtcMidnight(d: Date): int { DayNumber(d) * DAY_MS }

  /** The civil date of an instant in the issuer zone. */
  type CivilDate = int -> Date

  ghost predicate NeverBack(civil: CivilDate) { forall s, t | s <= t :: AtMost(civil(s), civil(t)) }

  predicate AroundMidnight(civil: CivilDate, d: Date) {
    Less(civil(UtcMidnight(d) - WINDOW_MS), d) && AtMost(d, civil(UtcMidnight(d) + WINDOW_MS))
  }

  ghost predicate FitsWindow(civil: CivilDate) { forall d | ValidDate(d) && d.year >= 1 :: AroundMidnight(civil, d) }

  /** The zone rules this module relies on: civil dates never go back, and no offset exceeds 14 hours. */
  ghost predicate ZoneOk(civil: CivilDate) {
    (forall t :: ValidDate(civil(t))) && NeverBack(civil) && FitsWindow(civil)
  }

  function FixedOffset(offset: int, t: int): Date {
    var n := (t + offset) / DAY_MS;
    FromDayNumber(if n < FIRST_DAY then FIRST_DAY else n)
  }

  lemma OffsetsKeepOrder(offset: int, s: int, t: int)
    requires s <= t
    ensures AtMost(FixedOffset(offset, s), FixedOffset(offset, t))
  {
    DayNumbersAreOrdered(FixedOffset(offset, t), FixedOffset(offset, s));
  }

  /** Half a day and more before or after a midnight, in whole days. */
  lemma WindowInDays(n: int, offset: int)
    requires -WINDOW_MS <= offset < WINDOW_MS
    ensures (n * DAY_MS - WINDOW_MS + offset) / DAY_MS < n <= (n * DAY_MS + WINDOW_MS + offset) / DAY_MS
  {
  }

  lemma OffsetsFitTheWindow(offset: int, d: Date)
    requires -WINDOW_MS <= offset < WINDOW_MS && ValidDate(d) && d.year >= 1
    ensures Less(FixedOffset(offset, UtcMidnight(d) - WINDOW_MS), d) && AtMost(d, FixedOffset(offset, UtcMidnight(d) + WINDOW_MS))
  {
    var (before, after) := (FixedOffset(offset, UtcMidnight(d) - WINDOW_MS), FixedOffset(offset, UtcMidnight(d) + WINDOW_MS));
    WindowInDays(DayNumber(d), offset);
    DayOfYearIsBounded(d);
    YearsGrow(1, d.year);
    DayNumbersAreOrdered(before, d);
    DayNumbersAreOrdered(after, d);
  }

  /** For example, any fixed offset of less than 14 hours is such a zone. */
  lemma FixedOffsetsAreZones(offset: int)
    requires -WINDOW_MS <= offset < WINDOW_MS
    ensures ZoneOk(t => FixedOffset(offset, t))
  {
    var civil: CivilDate := t => FixedOffset(offset, t);
    assert NeverBack(civil) by {
      forall s, t | s <= t ensures AtMost(civil(s), civil(t)) { OffsetsKeepOrder(offset, s, t); }
    }
    assert FitsWindow(civil) by {
      forall d | ValidDate(d) && d.year >= 1 ensures AroundMidnight(civil, d) { OffsetsFitTheWindow(offset, d); }
    }
  }

  /** The first instant of the date, or of the next one that exists in the zone. */
  ghost predicate StartsAt(civil: CivilDate, d: Date, start: int) {
    AtMost(d, civil(start)) && forall t | t < start :: Less(civil(t), d)
  }

  /** Binary search in the window of 14 hours around midnight UTC. */
  method StartOfLocalDate(civil: CivilDate, d: Date) returns (start: int)
    requires ZoneOk(civil) && ValidDate(d) && d.year >= 1
    ensures StartsAt(civil, d, start)
  {
    assert AroundMidnight(civil, d);
    var low := UtcMidnight(d) - WINDOW_MS;
    var high := UtcMidnight(d) + WINDOW_MS;
    while high - low > 1
      invariant low < high
      invariant Less(civil(low), d) && AtMost(d, civil(high))
    {
      var middle := (low + high) / 2;
      if AtMost(d, civil(middle)) {
        high := middle;
      } else {
        low := middle;
      }
    }
    forall t | t < high ensures Less(civil(t), d) { assert AtMost(civil(t), civil(low)); }
    start := high;
  }

  /** The start of a date is unique, and lies on the date whenever any instant does. */
  lemma StartIsFirstInstant(civil: CivilDate, d: Date, start: int, other: int, on: int)
    requires ZoneOk(civil) && ValidDate(d) && StartsAt(civil, d, start)
    ensures StartsAt(civil, d, other) ==> other == start
    ensures civil(on) == d ==> start <= on && civil(start) == d
  {
    if civil(on) == d {
      assert start <= on;
      assert AtMost(civil(start), civil(on));
      DayNumbersAreOrdered(civil(start), d);
    }
  }

  const POLICY_DAYS: nat := 5
  const MAX_OVERRIDE_DAYS: nat := 365

  datatype Resolved = Resolved(issueLocalDate: Date, through: Date, validUntil: int)

  datatype RangeError = OverrideOutOfRange

  predicate InOverrideRange(issueLocalDate: Date, through: Date)
    requires ValidDate(issueLocalDate)
  {
    AtMost(issueLocalDate, through) && AtMost(through, AddDays(issueLocalDate, MAX_OVERRIDE_DAYS))
  }

  /** The override range in days. */
  lemma RangeIsAYear(issueLocalDate: Date, override: Option<Date>)
    requires ValidDate(issueLocalDate) && (override.Some? ==> ValidDate(override.value))
    ensures override.Some? ==>
              (InOverrideRange(issueLocalDate, override.value) <==> 0 <= DayNumber(override.value) - DayNumber(issueLocalDate) <= 365)
  {
    if override.Some? {
      DayNumbersAreOrdered(override.value, issueLocalDate);
      DayNumbersAreOrdered(AddDays(issueLocalDate, MAX_OVERRIDE_DAYS), override.value);
    }
  }

  /** Valid through the fifth calendar day, or through the override date. */
  method ResolveValidity(civil: CivilDate, issuedAt: int, override: Option<Date>) returns (r: Result<Resolved, RangeError>)
    requires ZoneOk(civil) && civil(issuedAt).year >= 1 && (override.Some? ==> ValidDate(override.value))
    ensures r.Failure? <==> override.Some? && !(0 <= DayNumber(override.value) - DayNumber(civil(issuedAt)) <= 365)
    ensures r.Success? ==>
              var v := r.value;
              && v.issueLocalDate == civil(issuedAt)
              && v.through == (if override.Some? then override.value else DatesLater(civil(issuedAt), POLICY_DAYS - 1))
              && (override.None? ==> ValidDate(v.through) && DayNumber(v.through) == DayNumber(civil(issuedAt)) + 4)
              && issuedAt < v.validUntil
              && (forall t :: t < v.validUntil <==> AtMost(civil(t), v.through))
  {
    RangeIsAYear(civil(issuedAt), override);
    var issueLocalDate := civil(issuedAt);
    if override.Some? && !InOverrideRange(issueLocalDate, override.value) {
      return Failure(OverrideOutOfRange);
    }
    var through := if override.Some? then override.value else AddDays(issueLocalDate, POLICY_DAYS - 1);
    AddDaysWalksTheCalendar(issueLocalDate, POLICY_DAYS - 1);
    LaterIsAtMost(issueLocalDate, POLICY_DAYS - 1);
    LaterIsAtMost(through, 1);
    var start := StartOfLocalDate(civil, AddDays(through, 1));
    EndsAfterIssue(civil, issuedAt, through, start);
    r := Success(Resolved(issueLocalDate, through, start));
  }

  lemma EndsAfterIssue(civil: CivilDate, issuedAt: int, through: Date, start: int)
    requires ZoneOk(civil) && ValidDate(through) && StartsAt(civil, AddDays(through, 1), start)
    requires AtMost(civil(issuedAt), through)
    ensures issuedAt < start && forall t :: t < start <==> AtMost(civil(t), through)
  {
    forall t ensures t < start <==> AtMost(civil(t), through) {
      BeforeStartIsThrough(civil, through, start, t);
    }
  }

  lemma LaterIsAtMost(d: Date, days: nat)
    requires ValidDate(d)
    ensures AtMost(d, AddDays(d, days))
  {
    DayNumbersAreOrdered(AddDays(d, days), d);
  }

  lemma BeforeStartIsThrough(civil: CivilDate, through: Date, start: int, t: int)
    requires ZoneOk(civil) && ValidDate(through) && StartsAt(civil, AddDays(through, 1), start)
    ensures t < start <==> AtMost(civil(t), through)
  {
    var after := AddDays(through, 1);
    DayNumbersAreOrdered(through, civil(t));
    DayNumbersAreOrdered(civil(t), after);
    if t >= start {
      assert AtMost(civil(start), civil(t));
      DayNumbersAreOrdered(civil(t), civil(start));
      DayNumbersAreOrdered(civil(start), after);
    }
  }

  /** A quote issued with a resolved validity is unexpired exactly while the civil date is at most its last day. */
  lemma UnexpiredThroughLastDay(civil: CivilDate, through: Date, issue: Rows.Issue, now: nat)
    requires ZoneOk(civil) && ValidDate(through) && StartsAt(civil, AddDays(through, 1), issue.validUntil)
    ensures !Expiry.IsPastValidity(Some(issue), now) <==> AtMost(civil(now), through)
  {
    BeforeStartIsThrough(civil, through, issue.validUntil, now);
  }
}
