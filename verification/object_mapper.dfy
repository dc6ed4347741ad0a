/** `IObjectMapper` as the service sees it: one engine chosen when the
    application is wired, and the three rules it dispatches to. */
module ObjectMapper {
  import opened Calendar
  import opened Entities
  import opened Dtos
  import AutoMapperConfig
  import MapsterConfig

  datatype Engine = AutoMapper | Mapster

  /** `Map<CustomerDto>(customer)`; the result does not depend on the engine. */
  function MapToDto(engine: Engine, c: Customer, today: ValidDate): (d: CustomerDto)
    ensures d == AutoMapperConfig.ToDto(c, today)
  {
    match engine
    case AutoMapper => AutoMapperConfig.ToDto(c, today)
    case Mapster =>
      MapsterConfig.ReadRuleAgrees(c, today);
      MapsterConfig.ToDto(c, today)
  }

  /** `Map<Customer>(input)`; the result does not depend on the engine. */
  function MapToCustomer(engine: Engine, input: CustomerCreateDto, now: ValidDateTime): (c: Customer)
    ensures c == AutoMapperConfig.FromCreateDto(input, now)
  {
    match engine
    case AutoMapper => AutoMapperConfig.FromCreateDto(input, now)
    case Mapster =>
      MapsterConfig.CreateRuleAgrees(input, now);
      MapsterConfig.FromCreateDto(input, now)
  }

  /** `Map(input, destination)`, the selective overwrite; the result does not
      depend on the engine. */
  function MapOnto(engine: Engine, input: CustomerUpdateDto, dest: Customer, now: ValidDateTime): (c: Customer)
    ensures c == AutoMapperConfig.ApplyUpdateDto(input, dest, now)
  {
    match engine
    case AutoMapper => AutoMapperConfig.ApplyUpdateDto(input, dest, now)
    case Mapster =>
      MapsterConfig.UpdateRuleAgrees(input, dest, now);
      MapsterConfig.ApplyUpdateDto(input, dest, now)
  }
}
