/** One customer's life through the service on a fixed clock: created,
    read, updated, deleted. */
module Scenario {
  import opened Wrappers
  import opened Calendar
  import opened Entities
  import opened Dtos
  import opened CustomerRepository
  import opened ObjectMapper
  import CustomerService

  const Today: ValidDate := Date(2024, 6, 1)
  const Now: ValidDateTime := DateTime(Date(2024, 6, 1), 0)
  const Later: ValidDateTime := DateTime(Date(2024, 6, 2), 0)
  const EmptyStore: Repository := Repository(EmptyTable, EmptyTable)

  const Ana: CustomerCreateDto :=
    CustomerCreateDto(Some("Ana"), Some("Silva"), Some("ana@x.com"), None, DateTime(Date(2000, 1, 1), 0))

  /** An update-input that sets only the phone number. The update rule copies
      every same-named member, so the names it leaves null are overwritten
      with null. */
  const PhoneOnly: CustomerUpdateDto :=
    CustomerUpdateDto(None, None, None, Some("123"), DefaultDateTime)

  /** Created on 2024-06-01 with a birth date of 2000-01-01, Ana reads back as
      an active 24-year-old named "Ana Silva". After a phone-only update the
      stored customer has the new phone number, the same e-mail and an
      update time. After a delete she is gone. */
  lemma {:induction false} CustomerLifecycle(engine: Engine)
    ensures var (afterCreate, created) := CustomerService.Create(EmptyStore, Ana, engine, Now, Today);
      && created.fullName == "Ana Silva" && created.age == 24 && created.isActive
      && CustomerService.GetById(afterCreate, created.id, engine, Today) == Some(created)
      && var (afterUpdate, updated) := CustomerService.Update(afterCreate, created.id, PhoneOnly, engine, Later, Today);
         && updated.phoneNumber == Some("123")
         && afterUpdate.context.rows[created.id].email == Some("ana@x.com")
         && afterUpdate.context.rows[created.id].updatedAt == Some(Later)
         && CustomerService.GetById(CustomerService.Delete(afterUpdate, created.id), created.id, engine, Today) == None
  {
    var (afterCreate, created) := CustomerService.Create(EmptyStore, Ana, engine, Now, Today);
    assert "Ana" + " " + "Silva" == "Ana Silva";
    assert !MonthDayBefore(Today, Ana.birthDate.date);
    assert created.id in afterCreate.context.rows;
    CustomerService.DeleteThenGetByIdIsAbsent(
      CustomerService.Update(afterCreate, created.id, PhoneOnly, engine, Later, Today).0, created.id, engine, Today);
  }
}
