/** The AutoMapper profile: three mapping rules between `Customer` and its
    transfer objects, and the age computation the read rule uses. The clock
    is a parameter: `now` stands for `DateTime.UtcNow`, `today` for
    `DateTime.Today`. */
module AutoMapperConfig {
  import opened Wrappers
  import opened Text
  import opened Calendar
  import opened Entities
  import opened Dtos

  /** `CalculateAge`: the year difference, less one when the birth date
      (time of day dropped) falls after `today` moved back by that many
      years. */
  function CalculateAge(birthDate: ValidDateTime, today: ValidDate): int {
    var age := today.year - birthDate.date.year;
    if DateBefore(AddYears(today, -age), birthDate.date) then age - 1 else age
  }

  /** The age is the number of birthdays reached: the year difference, less
      one when this year's month and day of birth are still ahead of today.
      A February 29 birthday is reached on March 1 of a common year. */
  lemma AgeCountsBirthdays(birthDate: ValidDateTime, today: ValidDate)
    ensures CalculateAge(birthDate, today)
         == today.year - birthDate.date.year - (if MonthDayBefore(today, birthDate.date) then 1 else 0)
  {
    var b := birthDate.date;
    var shifted := AddYears(today, -(today.year - b.year));
    if shifted.day != today.day {
      // Only February 29 is clamped, and only into a common year, where no
      // birth date can fall on February 29.
      assert today.month == 2 && today.day == 29 && shifted.day == 28;
      assert !IsLeapYear(b.year);
      assert b.month == 2 ==> b.day <= 28;
    }
  }

  /** The age is always the year difference or one less. */
  lemma AgeIsYearDifferenceOrOneLess(birthDate: ValidDateTime, today: ValidDate)
    ensures var diff := today.year - birthDate.date.year;
      CalculateAge(birthDate, today) in {diff, diff - 1}
    ensures CalculateAge(birthDate, today) == today.year - birthDate.date.year - 1
        <==> DateBefore(AddYears(today, -(today.year - birthDate.date.year)), birthDate.date)
  {
  }

  /** Nobody born on or before today has a negative age. */
  lemma AgeNonNegative(birthDate: ValidDateTime, today: ValidDate)
    requires !DateBefore(today, birthDate.date)
    ensures CalculateAge(birthDate, today) >= 0
  {
    AgeCountsBirthdays(birthDate, today);
  }

  /** Birthday boundary: born exactly `n` years before today (February 29
      clamped as `AddYears` does) gives age `n`; born one day later gives
      `n - 1`. */
  lemma AgeBoundary(today: ValidDate, n: int, ticks: int)
    requires 0 <= n < today.year
    requires 0 <= ticks < TicksPerDay
    requires IsValidDate(NextDay(AddYears(today, -n)))
    ensures CalculateAge(DateTime(AddYears(today, -n), ticks), today) == n
    ensures CalculateAge(DateTime(NextDay(AddYears(today, -n)), ticks), today) == n - 1
  {
    var b := AddYears(today, -n);
    AgeCountsBirthdays(DateTime(b, ticks), today);
    AgeCountsBirthdays(DateTime(NextDay(b), ticks), today);
  }

  /** `$"{FirstName} {LastName}"`. */
  function FullName(c: Customer): string {
    Interpolate(c.firstName) + " " + Interpolate(c.lastName)
  }

  /** Rule `Customer -> CustomerDto`: the derived members are computed, the
      rest are copied by name. */
  function ToDto(c: Customer, today: ValidDate): (d: CustomerDto)
    ensures d.fullName == Interpolate(c.firstName) + " " + Interpolate(c.lastName)
    ensures d.isActive <==> c.status == Active
    ensures d.age == today.year - c.birthDate.date.year
                     - (if MonthDayBefore(today, c.birthDate.date) then 1 else 0)
    ensures d.id == c.id && d.email == c.email && d.phoneNumber == c.phoneNumber
    ensures d.createdAt == c.createdAt
  {
    AgeCountsBirthdays(c.birthDate, today);
    CustomerDto(
      id := c.id,
      fullName := FullName(c),
      email := c.email,
      phoneNumber := c.phoneNumber,
      age := CalculateAge(c.birthDate, today),
      isActive := c.status == Active,
      createdAt := c.createdAt)
  }

  /** Rule `CustomerCreateDto -> Customer`: a new `Customer` whose same-named
      members come from the input, with `Id` left at its default, `Status`
      forced to `Active`, `CreatedAt` set to `now` and `UpdatedAt` absent. */
  function FromCreateDto(input: CustomerCreateDto, now: ValidDateTime): (c: Customer)
    ensures c.id == 0
    ensures c.status == Active
    ensures c.createdAt == now && c.updatedAt == None
    ensures c.firstName == input.firstName && c.lastName == input.lastName
    ensures c.email == input.email && c.phoneNumber == input.phoneNumber
    ensures c.birthDate == input.birthDate
  {
    NewCustomer(now).(
      firstName := input.firstName,
      lastName := input.lastName,
      email := input.email,
      phoneNumber := input.phoneNumber,
      birthDate := input.birthDate,
      status := Active,
      createdAt := now)
  }

  /** Rule `CustomerUpdateDto -> Customer`, applied onto an existing entity:
      `Id`, `Email`, `BirthDate`, `Status` and `CreatedAt` are never touched,
      `UpdatedAt` is stamped, and the remaining same-named members are
      overwritten, null values included. */
  function ApplyUpdateDto(input: CustomerUpdateDto, dest: Customer, now: ValidDateTime): (c: Customer)
    ensures c.id == dest.id && c.email == dest.email && c.birthDate == dest.birthDate
    ensures c.status == dest.status && c.createdAt == dest.createdAt
    ensures c.updatedAt == Some(now)
    ensures c.firstName == input.firstName && c.lastName == input.lastName
    ensures c.phoneNumber == input.phoneNumber
  {
    dest.(
      firstName := input.firstName,
      lastName := input.lastName,
      phoneNumber := input.phoneNumber,
      updatedAt := Some(now))
  }

  /** Applying the same update twice with the same clock is the same as
      applying it once. */
  lemma UpdateIdempotent(input: CustomerUpdateDto, dest: Customer, now: ValidDateTime)
    ensures ApplyUpdateDto(input, ApplyUpdateDto(input, dest, now), now) == ApplyUpdateDto(input, dest, now)
  {
  }

  /** The create rule's forced values are exactly the constructor's defaults
      taken at the same instant. */
  lemma CreateAgreesWithConstructor(input: CustomerCreateDto, now: ValidDateTime)
    ensures var c := FromCreateDto(input, now);
      && c.id == NewCustomer(now).id
      && c.status == NewCustomer(now).status
      && c.createdAt == NewCustomer(now).createdAt
      && c.updatedAt == NewCustomer(now).updatedAt
  {
  }
}
