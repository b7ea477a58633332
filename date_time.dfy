/**
 * The calendar and age logic of `3_ecosystem/3_3_date_time`: Gregorian leap
 * years and month lengths, a validated `Date`, the fixed "now" of
 * 2019-06-26 read from its text, and a user's age in completed years.
 */
module DateTime {
  import opened Wrappers
  import opened Integers
  import opened Text

  // ---------------------------------------------------------------------------
  // The calendar
  // ---------------------------------------------------------------------------

  /**
   * `is_leap_year`. Rust's `%` truncates toward zero and Dafny's is
   * Euclidean, but the two agree on whether the remainder is zero, which is
   * all this test looks at.
   */
  predicate IsLeapYear(year: int) {
    (year % 4 == 0 && year % 100 != 0) || year % 400 == 0
  }

  /** The Gregorian calendar repeats every 400 years. */
  lemma LeapYearsRepeat(year: int)
    ensures IsLeapYear(year + 400) == IsLeapYear(year)
  {
    assert (year + 400) % 4 == year % 4;
    assert (year + 400) % 100 == year % 100;
    assert (year + 400) % 400 == year % 400;
  }

  /** `days_in_month`: the length of a month of a year, 0 for a month that does not exist. */
  function DaysInMonth(year: int, month: U32): (n: U32)
    ensures 1 <= month <= 12 <==> n != 0
    ensures n != 0 ==> 28 <= n <= 31
    ensures n == 29 <==> month == 2 && IsLeapYear(year)
    ensures n == 28 <==> month == 2 && !IsLeapYear(year)
  {
    match month
    case 1 | 3 | 5 | 7 | 8 | 10 | 12 => 31
    case 4 | 6 | 9 | 11 => 30
    case 2 => if IsLeapYear(year) then 29 else 28
    case _ => 0
  }

  /** The months of a year add up to 366 days in a leap year and 365 otherwise. */
  lemma YearLength(year: int)
    ensures DaysInMonth(year, 1) + DaysInMonth(year, 2) + DaysInMonth(year, 3) + DaysInMonth(year, 4)
          + DaysInMonth(year, 5) + DaysInMonth(year, 6) + DaysInMonth(year, 7) + DaysInMonth(year, 8)
          + DaysInMonth(year, 9) + DaysInMonth(year, 10) + DaysInMonth(year, 11) + DaysInMonth(year, 12)
          == if IsLeapYear(year) then 366 else 365
  {
  }

  /** `Date`: a year, a month and a day, compared field by field in that order. */
  datatype Date = Date(year: I32, month: U32, day: U32)
  {
    /** `Date::new`: `None` unless the month exists and the day lies within it. */
    static function New(year: I32, month: U32, day: U32): (r: Option<Date>)
      ensures r.Some? <==> 1 <= month <= 12 && 1 <= day <= DaysInMonth(year, month)
      ensures r.Some? ==> r.value == Date(year, month, day)
    {
      if !(1 <= month <= 12) then None
      else
        var maxDay := DaysInMonth(year, month);
        if !(1 <= day <= maxDay) then None
        else Some(Date(year, month, day))
    }

    /** The derived `Ord`: `this` comes strictly before `other`. */
    predicate Less(other: Date) {
      TripleLess(year, month, day, other.year, other.month, other.day)
    }
  }

  /** `(y1, m1, d1) < (y2, m2, d2)` on tuples: the first field that differs decides. */
  predicate TripleLess(y1: int, m1: int, d1: int, y2: int, m2: int, d2: int) {
    y1 < y2 || (y1 == y2 && (m1 < m2 || (m1 == m2 && d1 < d2)))
  }

  /** `Date`'s order is a strict total order. */
  lemma DateOrderIsTotal(a: Date, b: Date, c: Date)
    ensures !a.Less(a)
    ensures a.Less(b) && b.Less(c) ==> a.Less(c)
    ensures a == b || a.Less(b) || b.Less(a)
    ensures !(a.Less(b) && b.Less(a))
  {
  }

  /** The dates the tests reject: 2019-02-29 does not exist, nor do months 13 and 0. */
  lemma InvalidDates()
    ensures Date.New(2019, 2, 29) == None
    ensures Date.New(2019, 13, 1) == None
    ensures Date.New(2019, 0, 10) == None
    ensures Date.New(2020, 2, 29) == Some(Date(2020, 2, 29))
  {
    assert !IsLeapYear(2019) && IsLeapYear(2020);
  }

  // ---------------------------------------------------------------------------
  // Now
  // ---------------------------------------------------------------------------

  /** The constant `NOW`. */
  const NOW: string := "2019-06-26"

  /** `NOW` splits on '-' into three pieces. */
  lemma SplitNow()
    ensures Split(NOW, '-') == ["2019", "06", "26"]
  {
    var parts := ["2019", "06", "26"];
    assert parts[1..][1..] == ["26"];
    assert parts[1..] == ["06", "26"];
    assert Join(parts, '-') == NOW;
    SplitJoin(parts, '-');
  }

  /** The three pieces of `NOW` parse as 2019, 6 and 26. */
  lemma ParseNowParts()
    ensures ParseSigned("2019", I32_MIN, I32_MAX) == Some(2019)
    ensures ParseUnsigned("06", U32_MAX) == Some(6)
    ensures ParseUnsigned("26", U32_MAX) == Some(26)
  {
    assert AllDigits("2019") && AllDigits("06") && AllDigits("26");
    assert "2019"[..3] == "201" && "201"[..2] == "20" && "20"[..1] == "2";
    assert DecimalValue("2019") == 2019;
    assert ParseUnsigned("2019", I32_MAX) == Some(2019);
    assert "06"[..1] == "0" && "26"[..1] == "2";
  }

  /**
   * `now_date`: `NOW` split on '-' into exactly three pieces, parsed as an
   * `i32` year and `u32` month and day, and validated. `None` stands for
   * the `unreachable!` panics, which this constant never reaches.
   */
  function NowDate(): (now: Option<Date>)
    ensures now == Some(Date(2019, 6, 26))
  {
    SplitNow();
    ParseNowParts();
    var parts := Split(NOW, '-');
    if |parts| != 3 then None
    else
      match (ParseSigned(parts[0], I32_MIN, I32_MAX), ParseUnsigned(parts[1], U32_MAX), ParseUnsigned(parts[2], U32_MAX))
      case (Some(year), Some(month), Some(day)) => Date.New(year, month, day)
      case _ => None
  }

  /** The `Date` that `now_date` returns. */
  function Now(): Date {
    NowDate().value
  }

  // ---------------------------------------------------------------------------
  // Age
  // ---------------------------------------------------------------------------

  datatype User = User(birthdate: Option<Date>)
  {
    /** `User::with_birthdate`: an invalid date leaves the birthdate unknown. */
    static function WithBirthdate(year: I32, month: U32, day: U32): (u: User)
      ensures u.birthdate == Date.New(year, month, day)
    {
      User(Date.New(year, month, day))
    }

    /**
     * `User::age`: the years completed by `now`, 0 without a birthdate or
     * for a birthdate after `now`, and `u16::MAX` for more years than a
     * `u16` holds. The year difference is taken on unbounded integers;
     * `AgeAsWritten` keeps the source's `i32` subtraction.
     */
    function Age(): (age: U16)
      ensures birthdate.None? || Now().Less(birthdate.value) ==> age == 0
      ensures birthdate.Some? && !Now().Less(birthdate.value) ==>
        age == Clamp(CompletedYears(birthdate.value, Now()))
    {
      match birthdate
      case None => 0
      case Some(birthdate) =>
        var now := Now();
        if now.Less(birthdate) then 0
        else
          var years := now.year - birthdate.year;
          var years := if TripleLess(0, now.month, now.day, 0, birthdate.month, birthdate.day) then years - 1 else years;
          if years <= 0 then 0
          else if years <= U16_MAX then years
          else U16_MAX
    }

    /** `User::is_adult`. */
    predicate IsAdult() {
      Age() >= 18
    }
  }

  /** An age saturated into the range of a `u16`. */
  function Clamp(years: int): U16 {
    if years <= 0 then 0 else if years <= U16_MAX then years else U16_MAX
  }

  /** The `n`-th birthday of someone born on `b` has come by `now`. */
  predicate Reached(b: Date, now: Date, n: int) {
    !TripleLess(now.year, now.month, now.day, b.year + n, b.month, b.day)
  }

  /** The number of birthdays (after birth) that someone born on `b` has had by `now`. */
  function CompletedYears(b: Date, now: Date): (n: int)
    ensures forall k :: Reached(b, now, k) <==> k <= n
  {
    if TripleLess(0, now.month, now.day, 0, b.month, b.day) then now.year - b.year - 1 else now.year - b.year
  }

  /** Someone not yet born has negative completed years, so an age of 0. */
  lemma NotBornYet(b: Date, now: Date)
    requires now.Less(b)
    ensures CompletedYears(b, now) < 0
  {
    assert !Reached(b, now, 0);
  }

  /** Someone born by `now` has completed at least zero years. */
  lemma BornBy(b: Date, now: Date)
    requires !now.Less(b)
    ensures CompletedYears(b, now) >= 0
  {
    assert Reached(b, now, 0);
  }

  /** Adulthood is having had the 18th birthday by `now`. */
  lemma IsAdultIffEighteenthBirthday(u: User)
    ensures u.IsAdult() <==> u.birthdate.Some? && Reached(u.birthdate.value, Now(), 18)
  {
    if u.birthdate.Some? && Now().Less(u.birthdate.value) {
      NotBornYet(u.birthdate.value, Now());
    }
  }

  /**
   * `User::age` as written: `now.year - birthdate.year` is an `i32`
   * subtraction, which overflows (a panic in a debug build) for a birth year
   * below `2019 - i32::MAX`. `None` stands for that panic.
   */
  function AgeAsWritten(u: User): (r: Option<U16>)
    ensures r.None? <==> u.birthdate.Some? && !Now().Less(u.birthdate.value) && u.birthdate.value.year < Now().year - I32_MAX
    ensures r.Some? ==> r.value == u.Age()
  {
    match u.birthdate
    case None => Some(0)
    case Some(birthdate) =>
      var now := Now();
      if now.Less(birthdate) then Some(0)
      else
        var difference := now.year - birthdate.year;
        if !(I32_MIN <= difference <= I32_MAX) then None
        else
          var years := if TripleLess(0, now.month, now.day, 0, birthdate.month, birthdate.day) then difference - 1 else difference;
          if years <= 0 then Some(0)
          else if years <= U16_MAX then Some(years)
          else Some(U16_MAX)
  }

  /** A birthdate the source accepts on which it overflows: 1 January of `i32::MIN`. */
  lemma AgeOverflowsForEarliestYear()
    ensures User.WithBirthdate(I32_MIN, 1, 1).birthdate.Some?
    ensures AgeAsWritten(User.WithBirthdate(I32_MIN, 1, 1)) == None
    ensures User.WithBirthdate(I32_MIN, 1, 1).Age() == U16_MAX
  {
  }

  /** The ages the tests expect of people already born. */
  lemma AgeExamples()
    ensures User.WithBirthdate(1990, 6, 4).Age() == 29
    ensures User.WithBirthdate(1990, 7, 4).Age() == 28
    ensures User.WithBirthdate(0, 1, 1).Age() == 2019
    ensures User.WithBirthdate(1970, 1, 1).Age() == 49
    ensures User.WithBirthdate(2019, 6, 25).Age() == 0
  {
  }

  /** Birthdates after today give age zero. */
  lemma FutureAgeExamples()
    ensures User.WithBirthdate(2032, 6, 25).Age() == 0
    ensures User.WithBirthdate(2019, 6, 27).Age() == 0
    ensures User.WithBirthdate(3000, 6, 27).Age() == 0
    ensures User.WithBirthdate(9999, 6, 27).Age() == 0
  {
  }

  /** The adulthood boundary and the invalid birthdates of the tests. */
  lemma AdultExamples()
    ensures !User.WithBirthdate(2001, 6, 27).IsAdult()
    ensures User.WithBirthdate(2001, 6, 26).IsAdult()
    ensures User.WithBirthdate(2019, 2, 29).Age() == 0 && !User.WithBirthdate(2019, 2, 29).IsAdult()
    ensures User.WithBirthdate(2019, 13, 1).Age() == 0 && !User.WithBirthdate(2019, 13, 1).IsAdult()
    ensures User.WithBirthdate(2019, 0, 10).Age() == 0 && !User.WithBirthdate(2019, 0, 10).IsAdult()
  {
    InvalidDates();
  }
}
