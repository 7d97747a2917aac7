/**
 * Calendar dates and the age derived from a birthday (act_1/app.py).
 *
 * Dates are compared as (year, month, day) triples, the way Python compares
 * `date` objects and tuples.  The clock is not read here: `today` is a
 * parameter everywhere.
 */
module Ages {
  import opened Wrappers

  datatype Date = Date(year: int, month: int, day: int)

  predicate IsLeapYear(y: int) {
    y % 4 == 0 && (y % 100 != 0 || y % 400 == 0)
  }

  function DaysInMonth(y: int, m: int): int
    requires 1 <= m <= 12
  {
    if m == 2 then (if IsLeapYear(y) then 29 else 28)
    else if m == 4 || m == 6 || m == 9 || m == 11 then 30
    else 31
  }

  /** A date that Python's `datetime.date` can hold. */
  predicate ValidDate(d: Date) {
    && 1 <= d.year <= 9999
    && 1 <= d.month <= 12
    && 1 <= d.day <= DaysInMonth(d.year, d.month)
  }

  /** Python's `(m1, d1) < (m2, d2)` on two pairs of integers. */
  predicate MonthDayBefore(m1: int, d1: int, m2: int, d2: int) {
    m1 < m2 || (m1 == m2 && d1 < d2)
  }

  /** Strict chronological order of two dates: `x < y` on Python dates. */
  predicate Precedes(x: Date, y: Date) {
    || x.year < y.year
    || (x.year == y.year && x.month < y.month)
    || (x.year == y.year && x.month == y.month && x.day < y.day)
  }

  /** The n-th anniversary of a birthday, as a (year, month, day) triple. */
  function Anniversary(birthday: Date, n: int): Date {
    Date(birthday.year + n, birthday.month, birthday.day)
  }

  /**
   * The module-level `age` (act_1/app.py:36-44): 0 without a birthday, else
   * the year difference less one when this year's birthday is still ahead.
   * Its meaning: `r` is the number of anniversaries already reached, i.e. the
   * r-th anniversary is not after today and the (r+1)-th is.
   */
  function Age(birthday: Option<Date>, today: Date): (r: int)
    ensures birthday.None? ==> r == 0
    ensures birthday.Some? ==>
              && !Precedes(today, Anniversary(birthday.value, r))
              && Precedes(today, Anniversary(birthday.value, r + 1))
  {
    match birthday
    case None => 0
    case Some(b) =>
      var age := today.year - b.year;
      if MonthDayBefore(today.month, today.day, b.month, b.day) then age - 1 else age
  }

  /** Python's `int(flag)`: a bool used in arithmetic. */
  function BoolToInt(flag: bool): (n: int)
    ensures n == 0 || n == 1
    ensures flag <==> n == 1
  {
    if flag then 1 else 0
  }

  /**
   * The inline age of `home` (act_1/app.py:128), which subtracts the tuple
   * comparison (a bool) from the year difference.  It always agrees with `Age`.
   */
  function InlineAge(today: Date, birthday: Date): (r: int)
    ensures r == Age(Some(birthday), today)
  {
    today.year - birthday.year - BoolToInt(MonthDayBefore(today.month, today.day, birthday.month, birthday.day))
  }

  /** The age is exactly the count of completed years: no other count fits its contract. */
  lemma AgeIsCompletedYears(birthday: Date, today: Date, n: int)
    requires !Precedes(today, Anniversary(birthday, n))
    requires Precedes(today, Anniversary(birthday, n + 1))
    ensures n == Age(Some(birthday), today)
  {
  }

  /** One less than the year difference exactly when the birthday is still ahead this year. */
  lemma AgeDropsBeforeBirthday(birthday: Date, today: Date)
    ensures Age(Some(birthday), today) == today.year - birthday.year - 1
            <==> (today.month < birthday.month || (today.month == birthday.month && today.day < birthday.day))
    ensures Age(Some(birthday), today) == today.year - birthday.year
            <==> !(today.month < birthday.month || (today.month == birthday.month && today.day < birthday.day))
  {
  }

  /** Somebody whose birthday is not in the future has a non-negative age. */
  lemma AgeNonNegative(birthday: Date, today: Date)
    requires !Precedes(today, birthday)
    ensures Age(Some(birthday), today) >= 0
  {
  }

  /** One day before, on, and one day after a 24th birthday. */
  lemma AgeAroundBirthday()
    ensures Age(Some(Date(2000, 6, 15)), Date(2024, 6, 14)) == 23
    ensures Age(Some(Date(2000, 6, 15)), Date(2024, 6, 15)) == 24
    ensures Age(Some(Date(2000, 6, 15)), Date(2024, 6, 16)) == 24
  {
  }
}
