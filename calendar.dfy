/** The parts of Python's naive `datetime.datetime` that the date formatter
    uses: the field checks its constructor performs (proleptic Gregorian
    calendar, years 1..9999) and the ordering its `<` operator implements. */
module Calendar {

  const MinYear := 1
  const MaxYear := 9999

  /** A naive date-time with the constructor's seven fields. */
  datatype DateTime = DateTime(year: int, month: int, day: int,
                               hour: int, minute: int, second: int, microsecond: int)

  /** The constructor's complaints, in the order it checks the fields. */
  datatype FieldError =
    | YearOutOfRange | MonthOutOfRange | DayOutOfRange
    | HourOutOfRange | MinuteOutOfRange | SecondOutOfRange | MicrosecondOutOfRange

  datatype Option<T> = None | Some(value: T)

  predicate IsLeapYear(y: int) {
    y % 4 == 0 && (y % 100 != 0 || y % 400 == 0)
  }

  function DaysInMonth(y: int, m: int): (n: int)
    requires 1 <= m <= 12
    ensures 28 <= n <= 31
    ensures m == 2 ==> (n == 29 <==> IsLeapYear(y))
    ensures m in {4, 6, 9, 11} <==> n == 30
    ensures m in {1, 3, 5, 7, 8, 10, 12} <==> n == 31
  {
    if m == 2 then (if IsLeapYear(y) then 29 else 28)
    else if m == 4 || m == 6 || m == 9 || m == 11 then 30
    else 31
  }

  /** The field values the constructor accepts. */
  predicate ValidDateTime(dt: DateTime) {
    && MinYear <= dt.year <= MaxYear
    && 1 <= dt.month <= 12
    && 1 <= dt.day <= DaysInMonth(dt.year, dt.month)
    && 0 <= dt.hour < 24
    && 0 <= dt.minute < 60
    && 0 <= dt.second < 60
    && 0 <= dt.microsecond < 1000000
  }

  function Rank(e: FieldError): nat {
    match e
    case YearOutOfRange => 0
    case MonthOutOfRange => 1
    case DayOutOfRange => 2
    case HourOutOfRange => 3
    case MinuteOutOfRange => 4
    case SecondOutOfRange => 5
    case MicrosecondOutOfRange => 6
  }

  /** Whether the one field that `e` is about is acceptable. The day is
      judged against its month, so it is acceptable only under a valid month. */
  predicate InRange(dt: DateTime, e: FieldError) {
    match e
    case YearOutOfRange => MinYear <= dt.year <= MaxYear
    case MonthOutOfRange => 1 <= dt.month <= 12
    case DayOutOfRange => 1 <= dt.month <= 12 && 1 <= dt.day <= DaysInMonth(dt.year, dt.month)
    case HourOutOfRange => 0 <= dt.hour < 24
    case MinuteOutOfRange => 0 <= dt.minute < 60
    case SecondOutOfRange => 0 <= dt.second < 60
    case MicrosecondOutOfRange => 0 <= dt.microsecond < 1000000
  }

  /** What the constructor does with its arguments: accept them, or raise
      for the first field (in checking order) that is out of range. */
  function CheckFields(dt: DateTime): (r: Option<FieldError>)
    ensures r.None? <==> ValidDateTime(dt)
    ensures r.Some? ==> !InRange(dt, r.value)
    ensures r.Some? ==> forall e :: Rank(e) < Rank(r.value) ==> InRange(dt, e)
  {
    if !(MinYear <= dt.year <= MaxYear) then Some(YearOutOfRange)
    else if !(1 <= dt.month <= 12) then Some(MonthOutOfRange)
    else if !(1 <= dt.day <= DaysInMonth(dt.year, dt.month)) then Some(DayOutOfRange)
    else if !(0 <= dt.hour < 24) then Some(HourOutOfRange)
    else if !(0 <= dt.minute < 60) then Some(MinuteOutOfRange)
    else if !(0 <= dt.second < 60) then Some(SecondOutOfRange)
    else if !(0 <= dt.microsecond < 1000000) then Some(MicrosecondOutOfRange)
    else None
  }

  /** `a < b` on naive date-times: the fields compared in order, year first. */
  predicate Before(a: DateTime, b: DateTime) {
    || a.year < b.year
    || (a.year == b.year && a.month < b.month)
    || (a.year == b.year && a.month == b.month && a.day < b.day)
    || (a.year == b.year && a.month == b.month && a.day == b.day && a.hour < b.hour)
    || (a.year == b.year && a.month == b.month && a.day == b.day && a.hour == b.hour
        && a.minute < b.minute)
    || (a.year == b.year && a.month == b.month && a.day == b.day && a.hour == b.hour
        && a.minute == b.minute && a.second < b.second)
    || (a.year == b.year && a.month == b.month && a.day == b.day && a.hour == b.hour
        && a.minute == b.minute && a.second == b.second && a.microsecond < b.microsecond)
  }

  /** The fields of a date-time as the digits of a mixed-radix number,
      most significant first; months and days are counted from zero. */
  function Digits(dt: DateTime): (x: seq<int>)
    ensures |x| == 7
  {
    [dt.year, dt.month - 1, dt.day - 1, dt.hour, dt.minute, dt.second, dt.microsecond]
  }

  /** The radix of each digit after the first (every month is given 31 day
      slots); the entry for the year is unused. */
  const Radices: seq<int> := [0, 12, 31, 24, 60, 60, 1000000]

  /** Every digit after the first lies below its radix. */
  predicate DigitsInRange(x: seq<int>)
    requires |x| == 7
  {
    forall i :: 1 <= i < 7 ==> 0 <= x[i] < Radices[i]
  }

  /** The number that the first `n` digits denote. */
  function PrefixKey(x: seq<int>, n: nat): int
    requires |x| == 7 && 1 <= n <= 7
  {
    if n == 1 then x[0] else PrefixKey(x, n - 1) * Radices[n - 1] + x[n - 1]
  }

  /** The first `n` digits agree. */
  predicate SamePrefix(x: seq<int>, y: seq<int>, n: nat)
    requires |x| == 7 && |y| == 7 && n <= 7
  {
    n == 0 || (SamePrefix(x, y, n - 1) && x[n - 1] == y[n - 1])
  }

  /** Lexicographic "less than" on the first `n` digits. */
  predicate PrefixBefore(x: seq<int>, y: seq<int>, n: nat)
    requires |x| == 7 && |y| == 7 && 1 <= n <= 7
  {
    if n == 1 then x[0] < y[0]
    else PrefixBefore(x, y, n - 1) || (SamePrefix(x, y, n - 1) && x[n - 1] < y[n - 1])
  }

  /** An independent measure of a valid date-time: the mixed-radix number
      its digits denote. `Before` is exactly "smaller key", and valid
      date-times that differ get different keys. */
  function Key(dt: DateTime): int {
    PrefixKey(Digits(dt), 7)
  }

  /** One step of a mixed-radix comparison: with lower digits below the
      radix, the higher part decides, and only a tie passes to the digit. */
  lemma MixedRadixStep(hi1: int, lo1: int, hi2: int, lo2: int, radix: int)
    requires 0 <= lo1 < radix && 0 <= lo2 < radix
    ensures hi1 * radix + lo1 < hi2 * radix + lo2 <==> hi1 < hi2 || (hi1 == hi2 && lo1 < lo2)
    ensures hi1 * radix + lo1 == hi2 * radix + lo2 <==> hi1 == hi2 && lo1 == lo2
  {
    if hi1 < hi2 {
      Spread(hi1, hi2 - hi1, radix);
    } else if hi2 < hi1 {
      Spread(hi2, hi1 - hi2, radix);
    }
  }

  /** Raising the higher part by `k >= 1` adds at least one full radix. */
  lemma {:induction false} Spread(hi: int, k: nat, radix: int)
    requires k >= 1 && radix >= 0
    ensures (hi + k) * radix >= hi * radix + radix
  {
    if k > 1 {
      Spread(hi, k - 1, radix);
      assert (hi + k) * radix == (hi + k - 1) * radix + radix;
    }
  }

  /** On digits within range, comparing the first `n` digits
      lexicographically is comparing the numbers they denote. */
  lemma {:induction false} PrefixKeyOrder(x: seq<int>, y: seq<int>, n: nat)
    requires |x| == 7 && |y| == 7 && 1 <= n <= 7
    requires DigitsInRange(x) && DigitsInRange(y)
    ensures PrefixBefore(x, y, n) <==> PrefixKey(x, n) < PrefixKey(y, n)
    ensures SamePrefix(x, y, n) <==> PrefixKey(x, n) == PrefixKey(y, n)
  {
    if n > 1 {
      PrefixKeyOrder(x, y, n - 1);
      MixedRadixStep(PrefixKey(x, n - 1), x[n - 1], PrefixKey(y, n - 1), y[n - 1], Radices[n - 1]);
      if SamePrefix(x, y, n - 1) && x[n - 1] == y[n - 1] {
        assert SamePrefix(x, y, n);
      }
    }
  }

  /** `Before` is the lexicographic order on the seven digits. */
  lemma BeforeIsLexicographic(a: DateTime, b: DateTime)
    ensures Before(a, b) <==> PrefixBefore(Digits(a), Digits(b), 7)
  {
    var x, y := Digits(a), Digits(b);
    assert SamePrefix(x, y, 1) <==> a.year == b.year;
    assert SamePrefix(x, y, 2) <==> SamePrefix(x, y, 1) && a.month == b.month;
    assert SamePrefix(x, y, 3) <==> SamePrefix(x, y, 2) && a.day == b.day;
    assert SamePrefix(x, y, 4) <==> SamePrefix(x, y, 3) && a.hour == b.hour;
    assert SamePrefix(x, y, 5) <==> SamePrefix(x, y, 4) && a.minute == b.minute;
    assert SamePrefix(x, y, 6) <==> SamePrefix(x, y, 5) && a.second == b.second;
    assert PrefixBefore(x, y, 1) <==> a.year < b.year;
    assert PrefixBefore(x, y, 2) <==> PrefixBefore(x, y, 1) || (SamePrefix(x, y, 1) && a.month < b.month);
    assert PrefixBefore(x, y, 3) <==> PrefixBefore(x, y, 2) || (SamePrefix(x, y, 2) && a.day < b.day);
    assert PrefixBefore(x, y, 4) <==> PrefixBefore(x, y, 3) || (SamePrefix(x, y, 3) && a.hour < b.hour);
    assert PrefixBefore(x, y, 5) <==> PrefixBefore(x, y, 4) || (SamePrefix(x, y, 4) && a.minute < b.minute);
    assert PrefixBefore(x, y, 6) <==> PrefixBefore(x, y, 5) || (SamePrefix(x, y, 5) && a.second < b.second);
    assert PrefixBefore(x, y, 7) <==> PrefixBefore(x, y, 6) || (SamePrefix(x, y, 6) && a.microsecond < b.microsecond);
  }

  /** `Before` agrees with the key order on valid date-times, and equal keys
      mean equal date-times. */
  lemma BeforeIsKeyOrder(a: DateTime, b: DateTime)
    requires ValidDateTime(a) && ValidDateTime(b)
    ensures Before(a, b) <==> Key(a) < Key(b)
    ensures a == b <==> Key(a) == Key(b)
  {
    var x, y := Digits(a), Digits(b);
    PrefixKeyOrder(x, y, 7);
    BeforeIsLexicographic(a, b);
    assert SamePrefix(x, y, 7) <==> a == b by {
      assert SamePrefix(x, y, 7) <==> SamePrefix(x, y, 6) && x[6] == y[6];
      assert SamePrefix(x, y, 6) <==> SamePrefix(x, y, 5) && x[5] == y[5];
      assert SamePrefix(x, y, 5) <==> SamePrefix(x, y, 4) && x[4] == y[4];
      assert SamePrefix(x, y, 4) <==> SamePrefix(x, y, 3) && x[3] == y[3];
      assert SamePrefix(x, y, 3) <==> SamePrefix(x, y, 2) && x[2] == y[2];
      assert SamePrefix(x, y, 2) <==> SamePrefix(x, y, 1) && x[1] == y[1];
      assert SamePrefix(x, y, 1) <==> x[0] == y[0];
    }
  }

  /** `Before` is a strict total order on valid date-times. */
  lemma BeforeIsStrictTotalOrder(a: DateTime, b: DateTime, c: DateTime)
    requires ValidDateTime(a) && ValidDateTime(b) && ValidDateTime(c)
    ensures !Before(a, a)
    ensures Before(a, b) ==> !Before(b, a)
    ensures Before(a, b) && Before(b, c) ==> Before(a, c)
    ensures a == b || Before(a, b) || Before(b, a)
  {
    BeforeIsKeyOrder(a, b);
    BeforeIsKeyOrder(b, c);
    BeforeIsKeyOrder(a, c);
  }
}
