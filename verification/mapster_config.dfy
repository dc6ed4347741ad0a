/** The Mapster configuration: the same three rules registered through
    `TypeAdapterConfig`, with its own copy of the age computation. Mapster
    builds a destination as a member initializer over a freshly constructed
    object, leaving ignored members at the values the constructor gave them;
    the functions below are written in that shape. */
module MapsterConfig {
  import opened Wrappers
  import opened Text
  import opened Calendar
  import opened Entities
  import opened Dtos
  import AutoMapperConfig

  /** Mapster's private copy of `CalculateAge`. */
  function CalculateAge(birthDate: ValidDateTime, today: ValidDate): int {
    var age := today.year - birthDate.date.year;
    if DateBefore(AddYears(today, -age), birthDate.date) then age - 1 else age
  }

  /** Both copies of the age computation agree on every birth date and day. */
  lemma CalculateAgeAgrees(birthDate: ValidDateTime, today: ValidDate)
    ensures CalculateAge(birthDate, today) == AutoMapperConfig.CalculateAge(birthDate, today)
  {
  }

  /** Rule `Customer -> CustomerDto`. */
  function ToDto(c: Customer, today: ValidDate): (d: CustomerDto)
    ensures d.fullName == Interpolate(c.firstName) + " " + Interpolate(c.lastName)
    ensures d.isActive <==> c.status == Active
    ensures d.age == today.year - c.birthDate.date.year
                     - (if MonthDayBefore(today, c.birthDate.date) then 1 else 0)
  {
    CalculateAgeAgrees(c.birthDate, today);
    AutoMapperConfig.AgeCountsBirthdays(c.birthDate, today);
    CustomerDto(
      c.id,
      Interpolate(c.firstName) + " " + Interpolate(c.lastName),
      c.email,
      c.phoneNumber,
      CalculateAge(c.birthDate, today),
      c.status == Active,
      c.createdAt)
  }

  /** Rule `CustomerCreateDto -> Customer`: `Id` and `UpdatedAt` ignored (left
      as the constructor set them), `Status` and `CreatedAt` mapped from
      constants. */
  function FromCreateDto(input: CustomerCreateDto, now: ValidDateTime): (c: Customer)
    ensures c.id == 0 && c.status == Active
    ensures c.createdAt == now && c.updatedAt == None
  {
    var constructed := NewCustomer(now);
    Customer(
      constructed.id,
      input.firstName,
      input.lastName,
      input.email,
      input.phoneNumber,
      input.birthDate,
      Active,
      now,
      constructed.updatedAt)
  }

  /** Rule `CustomerUpdateDto -> Customer` onto an existing entity: ignored
      members keep the destination's values, `UpdatedAt` is mapped from the
      clock, and every other destination member takes the same-named source
      member when the source has one. */
  function ApplyUpdateDto(input: CustomerUpdateDto, dest: Customer, now: ValidDateTime): (c: Customer)
    ensures c.id == dest.id && c.email == dest.email && c.birthDate == dest.birthDate
    ensures c.status == dest.status && c.createdAt == dest.createdAt
    ensures c.updatedAt == Some(now)
  {
    Customer(
      dest.id,
      input.firstName,
      input.lastName,
      dest.email,
      input.phoneNumber,
      dest.birthDate,
      dest.status,
      dest.createdAt,
      Some(now))
  }

  /** Engine equivalence, read rule: Mapster's `Customer -> CustomerDto`
      produces exactly what AutoMapper's does. */
  lemma ReadRuleAgrees(c: Customer, today: ValidDate)
    ensures ToDto(c, today) == AutoMapperConfig.ToDto(c, today)
  {
    CalculateAgeAgrees(c.birthDate, today);
  }

  /** Engine equivalence, create rule. */
  lemma CreateRuleAgrees(input: CustomerCreateDto, now: ValidDateTime)
    ensures FromCreateDto(input, now) == AutoMapperConfig.FromCreateDto(input, now)
  {
  }

  /** Engine equivalence, update rule. */
  lemma UpdateRuleAgrees(input: CustomerUpdateDto, dest: Customer, now: ValidDateTime)
    ensures ApplyUpdateDto(input, dest, now) == AutoMapperConfig.ApplyUpdateDto(input, dest, now)
  {
  }
}
