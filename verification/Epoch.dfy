/** Seconds since the epoch from the parts of a date and time, section 4.16 of the Base Definitions of POSIX.1-2017. */
module Epoch {
  import opened Wrappers

  datatype Date = Date(year: int, month: int, day: int)

  datatype Time = Time(hour: int, minute: int, second: int)

  datatype Problem = InvalidDate | InvalidTime

  const EPOCH := Date(1970, 1, 1)

  predicate YearIsLeap(year: int) {
    (year % 4 == 0 && year % 100 != 0) || year % 400 == 0
  }

  function DaysPerMonth(year: int, month: int): int
    requires 1 <= month <= 12
  {
    if month == 2 then (if YearIsLeap(year) then 29 else 28)
    else if month == 4 || month == 6 || month == 9 || month == 11 then 30 else 31
  }

  predicate ValidDate(d: Date) {
    d.year >= 1970 && 1 <= d.month <= 12 && 1 <= d.day <= DaysPerMonth(d.year, d.month)
  }

  predicate ValidTime(t: Time) {
    0 <= t.hour < 24 && 0 <= t.minute < 60 && 0 <= t.second < 60
  }

  /** Days of a year before a month. */
  function CumulativeDays(year: int, month: int): int
    requires 1 <= month <= 12
  {
    [0, 31, 59, 90, 120, 151, 181, 212, 243, 273, 304, 334][month - 1] + if YearIsLeap(year) && month > 2 then 1 else 0
  }

  function DayOfYear(d: Date): (r: Result<int, Problem>)
    ensures r.Ok? <==> ValidDate(d)
  {
    if ValidDate(d) then Ok(CumulativeDays(d.year, d.month) + d.day) else Err(InvalidDate)
  }

  /** The sum of the formula, term by term. All divisions are of numbers that are not negative. */
  function Terms(year: int, dayOfYear: int, t: Time, tzOffset: int): seq<int> {
    [-1 * tzOffset, t.second, t.minute * 60, t.hour * 3600, (dayOfYear - 1) * 86400, (year - 1900 - 70) * 31536000,
     (year - 1900 - 69) / 4 * 86400, -((year - 1900 - 1) / 100 * 86400), (year - 1900 + 299) / 400 * 86400]
  }

  function Sum(terms: seq<int>): int {
    if terms == [] then 0 else Sum(terms[..|terms| - 1]) + terms[|terms| - 1]
  }

  function EpochFromParts(d: Date, t: Time, tzOffset: int): (r: Result<int, Problem>)
    ensures r.Ok? <==> ValidDate(d) && ValidTime(t)
    ensures r == Err(InvalidTime) <==> !(0 <= t.hour <= 23 && 0 <= t.minute <= 59 && 0 <= t.second <= 59)
  {
    if !ValidTime(t) then Err(InvalidTime)
    else
      match DayOfYear(d)
      case Err(e) => Err(e)
      case Ok(dayOfYear) => Ok(Sum(Terms(d.year, dayOfYear, t, tzOffset)))
  }

  // ----- Counting days -----

  /** The calendar, one day at a time. */
  function NextDay(d: Date): Date
    requires ValidDate(d)
  {
    if d.day < DaysPerMonth(d.year, d.month) then d.(day := d.day + 1)
    else if d.month < 12 then Date(d.year, d.month + 1, 1)
    else Date(d.year + 1, 1, 1)
  }

  /** The date `n` days after the epoch. */
  function DateAfter(n: nat): (d: Date)
    ensures ValidDate(d)
  {
    if n == 0 then EPOCH else NextDay(DateAfter(n - 1))
  }

  /** Days from the epoch to a date, as the formula counts them. */
  function FormulaDays(d: Date): int
    requires ValidDate(d)
  {
    YearDays(d.year) + CumulativeDays(d.year, d.month) + d.day - 1
  }

  function YearDays(year: int): int {
    (year - 1970) * 365 + (year - 1969) / 4 - (year - 1901) / 100 + (year - 1601) / 400
  }

  lemma SumOfTerms(year: int, dayOfYear: int, t: Time, tzOffset: int)
    ensures Sum(Terms(year, dayOfYear, t, tzOffset)) ==
            86400 * (YearDays(year) + dayOfYear - 1) + t.hour * 3600 + t.minute * 60 + t.second - tzOffset
  {
    var ts := Terms(year, dayOfYear, t, tzOffset);
    PrefixSums(ts, 9);
    assert ts[..9] == ts;
  }

  lemma SumPrefix(ts: seq<int>, n: nat)
    requires 0 < n <= |ts|
    ensures Sum(ts[..n]) == Sum(ts[..n - 1]) + ts[n - 1]
  {
    assert ts[..n][..n - 1] == ts[..n - 1];
  }

  /** The leap terms of the formula change by one exactly after a leap year. */
  lemma NextYear(year: int)
    requires year >= 1970
    ensures YearDays(year + 1) == YearDays(year) + if YearIsLeap(year) then 366 else 365
  {
    NextQuotient4(year);
    NextQuotient100(year);
    NextQuotient400(year);
    Multiples(year);
  }

  lemma NextQuotient4(year: int)
    ensures (year + 1 - 1969) / 4 == (year - 1969) / 4 + if year % 4 == 0 then 1 else 0
  {
  }

  lemma NextQuotient100(year: int)
    ensures (year + 1 - 1901) / 100 == (year - 1901) / 100 + if year % 100 == 0 then 1 else 0
  {
  }

  lemma NextQuotient400(year: int)
    ensures (year + 1 - 1601) / 400 == (year - 1601) / 400 + if year % 400 == 0 then 1 else 0
  {
  }

  lemma Multiples(year: int)
    ensures (year % 400 == 0 ==> year % 100 == 0) && (year % 100 == 0 ==> year % 4 == 0)
  {
  }

  /** The table of cumulative days agrees with the days of the months. */
  lemma NextMonth(year: int, month: int)
    requires 1 <= month < 12
    ensures CumulativeDays(year, month + 1) == CumulativeDays(year, month) + DaysPerMonth(year, month)
  {
  }

  lemma NextDayAddsOne(d: Date)
    requires ValidDate(d)
    ensures ValidDate(NextDay(d)) && FormulaDays(NextDay(d)) == FormulaDays(d) + 1
  {
    hide YearIsLeap;
    hide CumulativeDays;
    if d.day == DaysPerMonth(d.year, d.month) {
      if d.month < 12 {
        NextMonth(d.year, d.month);
      } else {
        NextYear(d.year);
        December(d.year);
      }
    }
  }

  lemma December(year: int)
    ensures CumulativeDays(year, 12) + 31 == if YearIsLeap(year) then 366 else 365
    ensures CumulativeDays(year, 1) == 0 && CumulativeDays(year + 1, 1) == 0
  {
  }

  lemma {:induction false} FormulaCounts(n: nat)
    ensures FormulaDays(DateAfter(n)) == n
  {
    if n > 0 {
      FormulaCounts(n - 1);
      NextDayAddsOne(DateAfter(n - 1));
    }
  }

  function PreviousDay(d: Date): (p: Date)
    requires ValidDate(d) && d != EPOCH
    ensures ValidDate(p) && NextDay(p) == d
  {
    if d.day > 1 then d.(day := d.day - 1)
    else if d.month > 1 then Date(d.year, d.month - 1, DaysPerMonth(d.year, d.month - 1))
    else Date(d.year - 1, 12, 31)
  }

  /** Counting reaches every valid date. */
  lemma {:induction false} EveryDateIsCounted(d: Date) returns (n: nat)
    requires ValidDate(d)
    ensures DateAfter(n) == d
    decreases d.year, d.month, d.day
  {
    if d == EPOCH {
      n := 0;
    } else {
      var m := EveryDateIsCounted(PreviousDay(d));
      n := m + 1;
    }
  }

  /** For every valid date and time the formula gives the seconds of the days counted one at a time, plus the time of day,
      minus the offset. */
  lemma EpochIsCounted(d: Date, t: Time, tzOffset: int) returns (days: nat)
    requires ValidDate(d) && ValidTime(t)
    ensures DateAfter(days) == d
    ensures EpochFromParts(d, t, tzOffset) ==
            Ok(86400 * days + t.hour * 3600 + t.minute * 60 + t.second - tzOffset)
  {
    hide YearDays;
    hide CumulativeDays;
    hide Terms;
    hide Sum;
    days := EveryDateIsCounted(d);
    FormulaCounts(days);
    SumOfTerms(d.year, CumulativeDays(d.year, d.month) + d.day, t, tzOffset);
  }

  // ----- 32-bit arithmetic -----

  const INT_MAX: int := 0x7FFF_FFFF

  predicate Fits(x: int) {
    -INT_MAX - 1 <= x <= INT_MAX
  }

  /** Every term and every partial sum, from left to right, is a 32-bit number. */
  predicate AllFit(ts: seq<int>) {
    forall i | 0 <= i < |ts| :: Fits(ts[i]) && Fits(Sum(ts[..i + 1]))
  }

  const OFFSET_MAX: int := 14 * 3600

  lemma CenturyTermsCancel(year: int)
    requires 1970 <= year <= 2038
    ensures (year - 1900 - 1) / 100 == (year - 1900 + 299) / 400 && 0 <= (year - 1900 - 1) / 100 <= 1
  {
  }

  lemma LeapTermsArePositive(year: int)
    requires year >= 1970
    ensures (year - 1969) / 4 - (year - 1901) / 100 + (year - 1601) / 400 >= 0
  {
  }

  lemma LateYearDoesNotFit(year: int, dayOfYear: int, t: Time, tzOffset: int)
    requires year > 2038 && 1 <= dayOfYear && ValidTime(t) && -OFFSET_MAX <= tzOffset <= OFFSET_MAX
    ensures !AllFit(Terms(year, dayOfYear, t, tzOffset)) && Sum(Terms(year, dayOfYear, t, tzOffset)) > INT_MAX
  {
    hide Sum;
    var ts := Terms(year, dayOfYear, t, tzOffset);
    assert !Fits(ts[5]);
    LeapTermsArePositive(year);
    SumOfTerms(year, dayOfYear, t, tzOffset);
  }

  /** Bounds of the partial sums up to year 2038: from the fifth on each is at most the whole, and none is too small. */
  lemma EarlyYearPartialSums(year: int, dayOfYear: int, t: Time, tzOffset: int, n: nat)
    requires 1970 <= year <= 2038 && 1 <= dayOfYear <= 366 && ValidTime(t) && -OFFSET_MAX <= tzOffset <= OFFSET_MAX
    requires 1 <= n <= 9
    ensures var ts := Terms(year, dayOfYear, t, tzOffset);
            |ts| == 9 && Fits(ts[n - 1]) && -INT_MAX <= Sum(ts[..n])
            && (Sum(ts[..n]) <= INT_MAX || Sum(ts[..n]) <= Sum(ts))
  {
    var ts := Terms(year, dayOfYear, t, tzOffset);
    CenturyTermsCancel(year);
    PrefixSums(ts, n);
    PrefixSums(ts, 9);
    assert ts[..9] == ts;
  }

  lemma PrefixSums(ts: seq<int>, n: nat)
    requires n <= |ts| && 1 <= n <= 9
    ensures Sum(ts[..n]) == ts[0] + (if n > 1 then ts[1] else 0) + (if n > 2 then ts[2] else 0)
            + (if n > 3 then ts[3] else 0) + (if n > 4 then ts[4] else 0) + (if n > 5 then ts[5] else 0)
            + (if n > 6 then ts[6] else 0) + (if n > 7 then ts[7] else 0) + (if n > 8 then ts[8] else 0)
    decreases n
  {
    SumPrefix(ts, n);
    if n > 1 {
      PrefixSums(ts, n - 1);
    } else {
      assert ts[..0] == [];
    }
  }

  /** The arithmetic of the formula stays within 32 bits exactly when its result does. */
  lemma FitsExactlyWhen(d: Date, t: Time, tzOffset: int)
    requires ValidDate(d) && ValidTime(t) && -OFFSET_MAX <= tzOffset <= OFFSET_MAX
    ensures AllFit(Terms(d.year, DayOfYear(d).value, t, tzOffset)) <==> EpochFromParts(d, t, tzOffset).value <= INT_MAX
  {
    hide Terms;
    hide Sum;
    var dayOfYear := DayOfYear(d).value;
    var ts := Terms(d.year, dayOfYear, t, tzOffset);
    if d.year > 2038 {
      LateYearDoesNotFit(d.year, dayOfYear, t, tzOffset);
    } else {
      forall i | 0 <= i < |ts|
        ensures Fits(ts[i]) && -INT_MAX <= Sum(ts[..i + 1]) && (Sum(ts[..i + 1]) <= INT_MAX || Sum(ts[..i + 1]) <= Sum(ts))
      {
        NineTerms(d.year, dayOfYear, t, tzOffset);
        EarlyYearPartialSums(d.year, dayOfYear, t, tzOffset, i + 1);
      }
      NineTerms(d.year, dayOfYear, t, tzOffset);
      assert ts[..9] == ts;
      if AllFit(ts) {
        assert Fits(ts[8]) && Fits(Sum(ts[..9]));
      }
    }
  }

  lemma NineTerms(year: int, dayOfYear: int, t: Time, tzOffset: int)
    ensures |Terms(year, dayOfYear, t, tzOffset)| == 9
  {
  }

  /** So it does for every date up to the end of 2037. */
  lemma FitsUntil2037(d: Date, t: Time, tzOffset: int)
    requires ValidDate(d) && d.year <= 2037 && ValidTime(t) && -OFFSET_MAX <= tzOffset <= OFFSET_MAX
    ensures AllFit(Terms(d.year, DayOfYear(d).value, t, tzOffset))
  {
    hide Terms;
    hide Sum;
    FitsExactlyWhen(d, t, tzOffset);
    SumOfTerms(d.year, DayOfYear(d).value, t, tzOffset);
    assert YearDays(d.year) <= 67 * 365 + 17;
  }

  /** The date, time and offset are not after 2038-01-19 03:14:07 UTC. */
  predicate UpTo2038(d: Date, t: Time, tzOffset: int) {
    || d.year < 2038
    || (d.year == 2038 && d.month == 1 &&
        (d.day - 19) * 86400 + t.hour * 3600 + t.minute * 60 + t.second - tzOffset <= 3 * 3600 + 14 * 60 + 7)
  }

  /** In 2038 the result is counted from the last second that fits. */
  lemma ResultIn2038(d: Date, t: Time, tzOffset: int)
    requires ValidDate(d) && d.year == 2038 && ValidTime(t)
    ensures EpochFromParts(d, t, tzOffset).value - INT_MAX ==
            (DayOfYear(d).value - 19) * 86400 + t.hour * 3600 + t.minute * 60 + t.second - tzOffset - 11647
    ensures DayOfYear(d).value == if d.month == 1 then d.day else CumulativeDays(2038, d.month) + d.day
  {
    hide Terms;
    hide Sum;
    SumOfTerms(2038, DayOfYear(d).value, t, tzOffset);
    assert YearDays(2038) == 24837;
  }

  /** The arithmetic of the formula stays within 32 bits exactly up to 2038-01-19 03:14:07 UTC. */
  lemma FitsExactlyUpTo2038(d: Date, t: Time, tzOffset: int)
    requires ValidDate(d) && ValidTime(t) && -OFFSET_MAX <= tzOffset <= OFFSET_MAX
    ensures AllFit(Terms(d.year, DayOfYear(d).value, t, tzOffset)) <==> UpTo2038(d, t, tzOffset)
  {
    hide Terms;
    hide Sum;
    hide AllFit;
    FitsExactlyWhen(d, t, tzOffset);
    if d.year < 2038 {
      FitsUntil2037(d, t, tzOffset);
    } else if d.year == 2038 {
      ResultIn2038(d, t, tzOffset);
    } else {
      LateYearDoesNotFit(d.year, DayOfYear(d).value, t, tzOffset);
    }
  }

  /** And not for the last seconds before the 32-bit clock ends. */
  lemma DoesNotFitIn2038()
    ensures AllFit(Terms(2038, 19, Time(3, 14, 7), 0))
    ensures EpochFromParts(Date(2038, 1, 19), Time(3, 14, 7), 0) == Ok(INT_MAX)
    ensures !AllFit(Terms(2038, 19, Time(3, 14, 8), 0))
  {
    hide Terms;
    hide Sum;
    FitsExactlyWhen(Date(2038, 1, 19), Time(3, 14, 7), 0);
    FitsExactlyWhen(Date(2038, 1, 19), Time(3, 14, 8), 0);
    SumOfTerms(2038, 19, Time(3, 14, 7), 0);
    SumOfTerms(2038, 19, Time(3, 14, 8), 0);
  }
}
