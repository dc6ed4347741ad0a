/** The transfer objects at the service boundary. */
module Dtos {
  import opened Wrappers
  import opened Text
  import opened Calendar

  /** The read-output: `FullName`, `Age` and `IsActive` are derived by the
      mapping rule; the other members are copied from the entity by name. */
  datatype CustomerDto = CustomerDto(
    id: int,
    fullName: string,
    email: NullableString,
    phoneNumber: NullableString,
    age: int,
    isActive: bool,
    createdAt: ValidDateTime)

  /** The create-input. */
  datatype CustomerCreateDto = CustomerCreateDto(
    firstName: NullableString,
    lastName: NullableString,
    email: NullableString,
    phoneNumber: NullableString,
    birthDate: ValidDateTime)

  /** The update-input. Its declaration is not part of this model; it is taken
      to carry the same members as the create-input. */
  datatype CustomerUpdateDto = CustomerUpdateDto(
    firstName: NullableString,
    lastName: NullableString,
    email: NullableString,
    phoneNumber: NullableString,
    birthDate: ValidDateTime)
}
