# NetArch.Template customer core in Dafny

This project models the part of the NetArch.Template solution that holds
real logic:

- The **customer mapping rules**, registered twice with the same content:
  once as an AutoMapper profile and once as a Mapster configuration.
  - The read rule (`Customer -> CustomerDto`) derives `FullName`, `Age` and `IsActive`.
  - The create rule (`CustomerCreateDto -> Customer`) forces `Status = Active` and `CreatedAt = now`.
  - The update rule (`CustomerUpdateDto` onto an existing `Customer`) is a selective overwrite that stamps `UpdatedAt`.
  - The age computation relies on `DateTime.AddYears`, which turns February 29 into February 28 in a common year.
- **`CustomerService`**: the five use cases composed from the repository and the configured mapping engine.
- **`CustomerRepository`**: an Entity Framework store, seen as a tracked context over a database.
  - Adds, updates and deletes are staged in the context.
  - `SaveChanges` publishes them.
  - Each table is a map from id to customer, an ordered id list, and the next generated key.
- **The entities**: `Customer`, and `EntityBase` with its constructor defaults.
- **`CustomerCreateDtoValidator`**: the FluentValidation rule chain, as data plus an evaluator.
- **Configuration lookups**:
  - `GetRequiredConfiguration`: the environment variable wins over the configuration, with a blank check.
  - The two connection-string getters.
  - The `UseSeq`/`SeqUrl` guard and the sink decisions of `AddSerilogConfiguration`.
  - The three-tier search for an Application Insights connection string.

The environment and the configuration are maps passed in as parameters.
So are the clock (`now` for `DateTime.UtcNow`, `today` for `DateTime.Today`),
the e-mail format check and the boolean converter.

Layout, one module per file:

| file | module | models |
|---|---|---|
| wrappers.dfy | Wrappers | `Option` (a C# null) and `Result` (an exception) |
| text.dfy | Text | `char.IsWhiteSpace`, `string.IsNullOrWhiteSpace`, UTF-16 length, interpolation of null |
| calendar.dfy | Calendar | dates, `DateTime` ordering, `AddYears` with February 29 clamping |
| entities.dfy | Entities | `Customer`, `CustomerStatus`, `EntityBase` |
| dtos.dfy | Dtos | `CustomerDto`, `CustomerCreateDto`, `CustomerUpdateDto` |
| automapper_config.dfy | AutoMapperConfig | the AutoMapper profile and `CalculateAge` |
| mapster_config.dfy | MapsterConfig | the Mapster configuration and its agreement with AutoMapper |
| object_mapper.dfy | ObjectMapper | `IObjectMapper` over either engine |
| customer_repository.dfy | CustomerRepository | the store |
| customer_service.dfy | CustomerService | the use cases |
| customer_validator.dfy | CustomerCreateDtoValidator | the validation rules |
| configuration.dfy | ConfigurationExtensions | required settings and connection strings |
| serilog.dfy | SerilogExtensions | logging decisions and the Application Insights connection string |
| scenario.dfy | Scenario | one customer created, read, updated and deleted |

## Model

| member | source | states |
|---|---|---|
| AutoMapperConfig.AgeCountsBirthdays | src/Core/NetArch.Template.Application/MappingProfiles/AutoMapperConfig.cs:39-45 | The age equals the number of birthdays reached by `today`: the year difference, less one exactly when the birth month and day are still ahead. This holds for February 29 birthdays and for a February 29 `today` too. |
| AutoMapperConfig.AgeIsYearDifferenceOrOneLess | src/Core/NetArch.Template.Application/MappingProfiles/AutoMapperConfig.cs:41-44 | The age is the year difference or one less. It is one less exactly when the birth date falls after `today.AddYears(-difference)`. |
| AutoMapperConfig.AgeNonNegative | src/Core/NetArch.Template.Application/MappingProfiles/AutoMapperConfig.cs:39-45 | The age is never negative for a birth date on or before today. |
| AutoMapperConfig.AgeBoundary | src/Core/NetArch.Template.Application/MappingProfiles/AutoMapperConfig.cs:42-43 | A birth exactly `n` years before today gives age `n`, at any time of day and with February 29 clamped as `AddYears` does. A birth one day later gives `n - 1`. |
| AutoMapperConfig.ToDto | src/Core/NetArch.Template.Application/MappingProfiles/AutoMapperConfig.cs:14-20 | The read-output's `FullName` is first name, a space, then last name, with a null name read as empty. `IsActive` holds iff the status is `Active`. `Age` counts birthdays. `Id`, `Email`, `PhoneNumber` and `CreatedAt` are copied. |
| AutoMapperConfig.FromCreateDto | src/Core/NetArch.Template.Application/MappingProfiles/AutoMapperConfig.cs:23-27 | A created customer has id 0, which the store replaces. It is `Active`, with `CreatedAt = now`, no `UpdatedAt`, and the input's names, e-mail, phone and birth date. |
| AutoMapperConfig.ApplyUpdateDto | src/Core/NetArch.Template.Application/MappingProfiles/AutoMapperConfig.cs:30-36 | An update keeps `Id`, `Email`, `BirthDate`, `Status` and `CreatedAt` and stamps `UpdatedAt = now`. It overwrites names and phone with the input's, nulls included. |
| AutoMapperConfig.UpdateIdempotent | src/Core/NetArch.Template.Application/MappingProfiles/AutoMapperConfig.cs:30-36 | Applying the same update twice with the same clock gives what applying it once gives. |
| AutoMapperConfig.CreateAgreesWithConstructor | src/Core/NetArch.Template.Domain/Entities/Customer.cs:17-21 | The create rule's id, status, creation time and update time are the defaults `new Customer()` gives at the same instant. |
| MapsterConfig.CalculateAgeAgrees | src/Core/NetArch.Template.Application/MappingProfiles/MapsterConfig.cs:36-42 | Mapster's copy of `CalculateAge` equals AutoMapper's for every birth date and day. |
| MapsterConfig.ToDto | src/Core/NetArch.Template.Application/MappingProfiles/MapsterConfig.cs:14-17 | Mapster's read rule builds `FullName` from both names and counts birthdays for `Age`. `IsActive` holds iff the status is `Active`. |
| MapsterConfig.FromCreateDto | src/Core/NetArch.Template.Application/MappingProfiles/MapsterConfig.cs:20-24 | Mapster's create rule leaves `Id` and `UpdatedAt` at the constructor's values (0 and absent). It forces `Active` and `CreatedAt = now`. |
| MapsterConfig.ApplyUpdateDto | src/Core/NetArch.Template.Application/MappingProfiles/MapsterConfig.cs:27-33 | Mapster's update rule keeps the five ignored members and stamps `UpdatedAt = now`. |
| MapsterConfig.ReadRuleAgrees | src/Core/NetArch.Template.Application/MappingProfiles/MapsterConfig.cs:14-17 | For every customer and day, both engines' read rules give the same read-output. |
| MapsterConfig.CreateRuleAgrees | src/Core/NetArch.Template.Application/MappingProfiles/MapsterConfig.cs:20-24 | For every input and clock, both engines' create rules give the same entity. |
| MapsterConfig.UpdateRuleAgrees | src/Core/NetArch.Template.Application/MappingProfiles/MapsterConfig.cs:27-33 | For every input, destination and clock, both engines' update rules give the same entity. |
| ObjectMapper.MapToDto | src/Infrastructure/NetArch.Template.Infrastructure.Abstractions/Mapping/IObjectMapper.cs:5-6 | `Map<CustomerDto>` gives the same read-output whichever engine is wired in. |
| ObjectMapper.MapToCustomer | src/Infrastructure/NetArch.Template.Infrastructure.Abstractions/Mapping/IObjectMapper.cs:5-6 | `Map<Customer>` gives the same entity whichever engine is wired in. |
| ObjectMapper.MapOnto | src/Infrastructure/NetArch.Template.Infrastructure.Abstractions/Mapping/IObjectMapper.cs:7 | `Map(source, destination)` gives the same entity whichever engine is wired in. |
| Calendar.AddYears | src/Core/NetArch.Template.Application/MappingProfiles/AutoMapperConfig.cs:43 | `AddYears` keeps the month and moves the year. It keeps the day except that February 29 becomes February 28 in a common year. The result is always a valid date. |
| Calendar.DaysInMonth | src/Core/NetArch.Template.Application/MappingProfiles/AutoMapperConfig.cs:43 | Months have 28 to 31 days, and February has 29 exactly in leap years. |
| Calendar.NextDay | src/Core/NetArch.Template.Application/MappingProfiles/AutoMapperConfig.cs:43 | The next day is later, and it is a valid date except after 9999-12-31. |
| Calendar.NextDayIsImmediate | src/Core/NetArch.Template.Application/MappingProfiles/AutoMapperConfig.cs:43 | No valid date lies strictly between a date and its next day, so the boundary case of the age covers the day right after an anniversary. |
| Entities.NewCustomer | src/Core/NetArch.Template.Domain/Entities/Customer.cs:5-21 | `new Customer()` is `Active` with `CreatedAt = now`. Every other member is at its default: id 0, null strings, default birth date, no `UpdatedAt`. |
| Entities.NewEntityBase | src/Core/NetArch.Template.Domain/Entities/EntityBase.cs:13-18 | A new entity gets a Guid not issued before. It has `CreatedAt = now` and no `UpdatedAt`, and it is not deleted, so `DeletedAt` is absent exactly when `IsDeleted` is false. |
| Entities.ConstructedIdsAreFresh | src/Core/NetArch.Template.Domain/Entities/EntityBase.cs:15 | Entities constructed one after another have pairwise distinct ids, none issued before. |
| Entities.ConstructedEntitiesAreClean | src/Core/NetArch.Template.Domain/Entities/EntityBase.cs:13-18 | Every constructed entity has its own creation instant, no `UpdatedAt`, is not deleted, and satisfies the soft-delete invariant. |
| CustomerRepository.GetById | src/Persistence/NetArch.Template.Persistence.EntityFrameworkCore/Repositories/CustomerRepository.cs:17-20 | The lookup finds a customer iff the id is stored. What it finds has that id and is listed by `GetAll`. |
| CustomerRepository.GetAll | src/Persistence/NetArch.Template.Persistence.EntityFrameworkCore/Repositories/CustomerRepository.cs:22-25 | Every stored customer is listed exactly once: as many entries as rows, each the stored row for its id, with no id repeated. |
| CustomerRepository.GetAllInStorageOrder | src/Persistence/NetArch.Template.Persistence.EntityFrameworkCore/Repositories/CustomerRepository.cs:22-25 | The listing follows storage order: its i-th entry is the row of the i-th id in the order. |
| CustomerRepository.DistinctSeqCardinality | src/Persistence/NetArch.Template.Persistence.EntityFrameworkCore/Repositories/CustomerRepository.cs:22-25 | A list of ids without repetition has as many distinct ids as entries. This is the counting step behind `GetAll`'s length. |
| CustomerRepository.GetActive | src/Persistence/NetArch.Template.Persistence.EntityFrameworkCore/Repositories/CustomerRepository.cs:27-32 | A customer is listed iff it is stored and `Active`. |
| CustomerRepository.ActiveOnly | src/Persistence/NetArch.Template.Persistence.EntityFrameworkCore/Repositories/CustomerRepository.cs:29-31 | The filter keeps exactly the `Active` elements and drops nothing from an all-active list. |
| CustomerRepository.Add | src/Persistence/NetArch.Template.Persistence.EntityFrameworkCore/Repositories/CustomerRepository.cs:34-37 | An add succeeds iff the id is 0 (a key is generated) or not yet stored. It inserts exactly one row under a fresh id and appends that id to the order. Nothing reaches the database before a save. |
| CustomerRepository.Update | src/Persistence/NetArch.Template.Persistence.EntityFrameworkCore/Repositories/CustomerRepository.cs:39-43 | An update succeeds iff the id is stored. It replaces that row only and keeps the order. |
| CustomerRepository.Delete | src/Persistence/NetArch.Template.Persistence.EntityFrameworkCore/Repositories/CustomerRepository.cs:45-52 | A delete removes exactly the id's row and keeps every other row. Deleting an absent id changes nothing. |
| CustomerRepository.Without | src/Persistence/NetArch.Template.Persistence.EntityFrameworkCore/Repositories/CustomerRepository.cs:50 | Removing an id from the order keeps every other id and keeps the order free of repetition. |
| CustomerRepository.RemovePreservesValid | src/Persistence/NetArch.Template.Persistence.EntityFrameworkCore/Repositories/CustomerRepository.cs:45-52 | Removing a row keeps the table consistent: the order lists exactly the stored ids, once each. |
| CustomerRepository.SaveChanges | src/Persistence/NetArch.Template.Persistence.EntityFrameworkCore/Repositories/CustomerRepository.cs:54-57 | After a save, no staged change is left and the context is unchanged. |
| CustomerRepository.RowsInOrderAppend | src/Persistence/NetArch.Template.Persistence.EntityFrameworkCore/Repositories/CustomerRepository.cs:22-25 | Listing a table after a new row is appended gives the old listing followed by the new row. |
| CustomerRepository.AddThenSaveIsVisible | src/Persistence/NetArch.Template.Persistence.EntityFrameworkCore/Repositories/CustomerRepository.cs:34-57 | After adding a new customer and saving, the lookup by its generated id finds it. `GetAll` lists it after everything that was there before, in unchanged order. |
| CustomerService.GetById | src/Core/NetArch.Template.Application/Services/CustomerService.cs:20-24 | The result is null iff the id is absent. Otherwise it is the read-output of the stored customer, whatever the engine. |
| CustomerService.GetAll | src/Core/NetArch.Template.Application/Services/CustomerService.cs:26-30 | There is one read-output per stored customer, in storage order, and every stored customer's read-output appears. |
| CustomerService.MapAll | src/Core/NetArch.Template.Application/Services/CustomerService.cs:29 | Mapping a list maps each element in place. |
| CustomerService.Create | src/Core/NetArch.Template.Application/Services/CustomerService.cs:32-39 | Exactly one customer is added under a fresh id, and the change is saved. The returned read-output is the read rule applied to the row stored under the new id: it is active, carries the input's e-mail and full name, `CreatedAt = now`, and the age counted from the input's birth date. |
| CustomerService.Update | src/Core/NetArch.Template.Application/Services/CustomerService.cs:41-50 | The set of ids and their order stay the same, and the change is saved. Every other customer is unchanged. The updated one keeps `Id`, `Email`, `BirthDate`, `Status` and `CreatedAt`, gets `UpdatedAt = now` and the input's names and phone. The result is its read-output. |
| CustomerService.UpdateStored | src/Core/NetArch.Template.Application/Services/CustomerService.cs:43-47 | After an update the store holds the update rule applied to the previously stored customer under the same id, every other row and the order are unchanged, and the change is saved. |
| CustomerService.Delete | src/Core/NetArch.Template.Application/Services/CustomerService.cs:52-56 | After the call, the id is gone, the change is saved, and every other customer is unchanged. Deleting an absent id changes nothing. |
| CustomerService.DeleteThenGetByIdIsAbsent | src/Core/NetArch.Template.Application/Services/CustomerService.cs:20-24 | Looking up an id right after deleting it gives null. |
| CustomerCreateDtoValidator.Validate | src/Core/NetArch.Template.Application/Validators/CustomerCreateDtoValidator.cs:8-15 | The input is reported valid exactly when every field meets its condition. Names must be non-blank and at most 100 UTF-16 units. The e-mail must be non-blank, well-formed and at most 255. The phone must be null or at most 20. The birth date must be set and before today. |
| CustomerCreateDtoValidator.ReportedIffRejected | src/Core/NetArch.Template.Application/Validators/CustomerCreateDtoValidator.cs:10-14 | Each field is named in the error list exactly when it fails its own condition. No accepted field is blamed, and no rejected field goes unreported. |
| CustomerCreateDtoValidator.RulesByField | src/Core/NetArch.Template.Application/Validators/CustomerCreateDtoValidator.cs:10-14 | Evaluating the rule chain in declaration order gives the five fields' failures one block after another. |
| CustomerCreateDtoValidator.StringViolationsMeaning | src/Core/NetArch.Template.Application/Validators/CustomerCreateDtoValidator.cs:10-13 | A string rule reports nothing iff all its checks pass, and it reports each failed check. |
| CustomerCreateDtoValidator.StringViolationsNameProperty | src/Core/NetArch.Template.Application/Validators/CustomerCreateDtoValidator.cs:10-13 | A string rule only reports failures of its own property. |
| CustomerCreateDtoValidator.DateViolationsMeaning | src/Core/NetArch.Template.Application/Validators/CustomerCreateDtoValidator.cs:14 | The birth-date rule reports nothing iff both of its checks pass. |
| CustomerCreateDtoValidator.NameRuleMeaning | src/Core/NetArch.Template.Application/Validators/CustomerCreateDtoValidator.cs:10-11 | `NotEmpty().MaximumLength(100)` passes iff the name is present, non-blank and at most 100 UTF-16 units. |
| CustomerCreateDtoValidator.EmailRuleMeaning | src/Core/NetArch.Template.Application/Validators/CustomerCreateDtoValidator.cs:12 | `NotEmpty().EmailAddress().MaximumLength(255)` passes iff the e-mail is present, non-blank, well-formed and at most 255 UTF-16 units. |
| CustomerCreateDtoValidator.PhoneRuleMeaning | src/Core/NetArch.Template.Application/Validators/CustomerCreateDtoValidator.cs:13 | `MaximumLength(20)` passes a null phone and any phone of at most 20 UTF-16 units. |
| CustomerCreateDtoValidator.BirthDateRuleMeaning | src/Core/NetArch.Template.Application/Validators/CustomerCreateDtoValidator.cs:14 | `NotEmpty().LessThan(DateTime.Today)` passes iff the birth date is not `default(DateTime)` and falls on a day before today. |
| CustomerCreateDtoValidator.NameLengthBoundary | src/Core/NetArch.Template.Application/Validators/CustomerCreateDtoValidator.cs:10 | A non-blank name of 100 UTF-16 units passes and one of 101 is rejected. |
| CustomerCreateDtoValidator.AcceptedBirthDateHasNonNegativeAge | src/Core/NetArch.Template.Application/Validators/CustomerCreateDtoValidator.cs:14 | A birth date the validator accepts yields a non-negative age in the read rule. |
| CustomerCreateDtoValidator.StringBlockReports | src/Core/NetArch.Template.Application/Validators/CustomerCreateDtoValidator.cs:10-13 | A string rule's block names its own property iff it is non-empty, and it never names the birth date. |
| CustomerCreateDtoValidator.DateBlockReports | src/Core/NetArch.Template.Application/Validators/CustomerCreateDtoValidator.cs:14 | The birth-date block names the birth date iff it is non-empty, and it names no string property. |
| Text.Utf16Length | src/Core/NetArch.Template.Application/Validators/CustomerCreateDtoValidator.cs:10-13 | A string's length in UTF-16 units is between its character count and twice that, and it equals the character count when every character is in the Basic Multilingual Plane. |
| ConfigurationExtensions.GetRequiredConfiguration | src/Infrastructure/NetArch.Template.Infrastructure.Abstractions/Extensions/ConfigurationExtensions.cs:29-47 | A set environment variable is chosen even when blank, and the configuration is read only when it is unset. The lookup fails iff the chosen value is null or blank, with an error naming both keys. A success is the chosen value verbatim and never blank. |
| ConfigurationExtensions.Message | src/Infrastructure/NetArch.Template.Infrastructure.Abstractions/Extensions/ConfigurationExtensions.cs:41-43 | The exception's message names the configuration key and then the environment variable, each in its own quoted place. |
| ConfigurationExtensions.Lookup | src/Infrastructure/NetArch.Template.Infrastructure.Abstractions/Extensions/ConfigurationExtensions.cs:35-37 | A key reads as null iff it is absent, and as its stored value otherwise. |
| ConfigurationExtensions.BlankEnvironmentHidesConfiguration | src/Infrastructure/NetArch.Template.Infrastructure.Abstractions/Extensions/ConfigurationExtensions.cs:35-44 | A set but blank environment variable makes the lookup fail even when the configuration holds a valid value. |
| ConfigurationExtensions.EnvironmentOverridesConfiguration | src/Infrastructure/NetArch.Template.Infrastructure.Abstractions/Extensions/ConfigurationExtensions.cs:35-37 | Once the environment variable is set, changing the configuration cannot change the result. |
| ConfigurationExtensions.LookupReadsOnlyItsKeys | src/Infrastructure/NetArch.Template.Infrastructure.Abstractions/Extensions/ConfigurationExtensions.cs:35-37 | The result depends on the two named keys only. |
| ConfigurationExtensions.GetDatabaseConnectionString | src/Infrastructure/NetArch.Template.Infrastructure.Abstractions/Extensions/ConfigurationExtensions.cs:8-14 | The database connection string is the non-blank value of `ConnectionStrings__DefaultConnection` if that is set, else of `ConnectionStrings:DefaultConnection`. It succeeds exactly when the chosen value is non-blank, and otherwise it fails naming those keys. |
| ConfigurationExtensions.GetRedisConnectionString | src/Infrastructure/NetArch.Template.Infrastructure.Abstractions/Extensions/ConfigurationExtensions.cs:16-22 | The Redis connection string is the non-blank value of `ConnectionStrings__RedisConnection` if that is set, else of `ConnectionStrings:RedisConnection`. It succeeds exactly when the chosen value is non-blank, and otherwise it fails naming those keys. |
| ConfigurationExtensions.ConnectionStringsIndependent | src/Infrastructure/NetArch.Template.Infrastructure.Abstractions/Extensions/ConfigurationExtensions.cs:8-22 | Setting the Redis keys never changes the database connection string, and setting the database keys never changes the Redis one. |
| SerilogExtensions.GetAppInsightsConnectionString | src/Infrastructure/NetArch.Template.Infrastructure/SerilogExtensions.cs:112-163 | The tiers are tried in order: environment variable, `ApplicationInsights` section, first `ApplicationInsights` sink. The result is empty exactly when no tier yields a value, and a non-empty result is never blank. |
| SerilogExtensions.EnvironmentTier | src/Infrastructure/NetArch.Template.Infrastructure/SerilogExtensions.cs:115-119 | `APPLICATIONINSIGHTS_CONNECTION_STRING` is used verbatim iff it is set and not blank. |
| SerilogExtensions.SectionTier | src/Infrastructure/NetArch.Template.Infrastructure/SerilogExtensions.cs:122-144 | The section yields a value iff both the instrumentation key and the ingestion endpoint are non-blank. The value is the string composed from the section. |
| SerilogExtensions.SinkTier | src/Infrastructure/NetArch.Template.Infrastructure/SerilogExtensions.cs:147-160 | Only the first `WriteTo` child named `ApplicationInsights` is consulted. Its connection string is returned, verbatim, iff it is non-blank and has no `{` or `}`. |
| SerilogExtensions.FirstNamed | src/Infrastructure/NetArch.Template.Infrastructure/SerilogExtensions.cs:147-149 | The position found holds the name and no earlier child does. Nothing is found iff no child has the name. |
| SerilogExtensions.Compose | src/Infrastructure/NetArch.Template.Infrastructure/SerilogExtensions.cs:131-141 | The composed string starts with `InstrumentationKey=`. |
| SerilogExtensions.AppendSegment | src/Infrastructure/NetArch.Template.Infrastructure/SerilogExtensions.cs:133-141 | An optional segment only extends the string, never changing what was there. |
| SerilogExtensions.ComposeParsesBack | src/Infrastructure/NetArch.Template.Infrastructure/SerilogExtensions.cs:131-141 | Round trip: when no value holds `;`, splitting the composed string at `;` and each piece at its first `=` gives the pairs in this order: `InstrumentationKey`, `IngestionEndpoint`, then `LiveEndpoint` and `ApplicationId`, each only when non-blank. |
| SerilogExtensions.ComposeJoinsSegments | src/Infrastructure/NetArch.Template.Infrastructure/SerilogExtensions.cs:131-141 | The composed string is its `key=value` segments joined with `;`. |
| SerilogExtensions.Split | src/Infrastructure/NetArch.Template.Infrastructure/SerilogExtensions.cs:131-141 | Splitting yields at least one piece, no piece holds the separator, and joining the pieces gives the input back. |
| SerilogExtensions.SplitJoin | src/Infrastructure/NetArch.Template.Infrastructure/SerilogExtensions.cs:131-141 | Splitting undoes joining when no piece holds the separator. |
| SerilogExtensions.KeyValueOfSegment | src/Infrastructure/NetArch.Template.Infrastructure/SerilogExtensions.cs:131-141 | A `key=value` segment whose key has no `=` reads back as that key and value. |
| SerilogExtensions.IndexOf | src/Infrastructure/NetArch.Template.Infrastructure/SerilogExtensions.cs:131-141 | The index found holds the character and no earlier index does. It is the length exactly when the character is absent. This is how a connection string is read back at its separators. |
| SerilogExtensions.IndexOfAgreesWithContains | src/Infrastructure/NetArch.Template.Infrastructure/SerilogExtensions.cs:155-156 | `Contains(c)` holds exactly when the search for the first `c` stops before the end. |
| SerilogExtensions.GetSwitch | src/Infrastructure/NetArch.Template.Infrastructure/SerilogExtensions.cs:27-28 | An absent switch reads as false. A present one is its parsed value, or an error naming the key when it does not parse. |
| SerilogExtensions.PlanLogging | src/Infrastructure/NetArch.Template.Infrastructure/SerilogExtensions.cs:25-106 | Configuration fails iff a switch does not parse, or `UseSeq` is on with a blank or missing `SeqUrl`. On success, a Seq sink exists iff `UseSeq`, with a non-blank URL. Telemetry is registered iff `UseApplicationInsights`. An Application Insights sink is added only with a non-blank connection string, and a warning is issued instead when none is found. |
| SerilogExtensions.SeqGuard | src/Infrastructure/NetArch.Template.Infrastructure/SerilogExtensions.cs:31-34 | With `UseSeq` on and no usable `SeqUrl`, configuration fails before anything is registered, whatever the environment and sinks. |
| Scenario.CustomerLifecycle | src/Core/NetArch.Template.Application/Services/CustomerService.cs:20-56 | Ana Silva is created on 2024-06-01 with birth date 2000-01-01, by either engine. She reads back as an active 24-year-old named "Ana Silva". A phone-only update sets the phone, keeps the e-mail and stamps `UpdatedAt`. After a delete, the lookup gives null. |

## Left out

- The generic Guid-keyed repository and its paging: the code has interfaces only and no implementation.
  - `Customer` has an `int` key and does not derive from `EntityBase`, so the customer store is modelled on its own.
- HTTP controllers, dependency-injection wiring, the EF `DbContext` setup and the architecture tests carry no logic of their own.
- Serilog's own sink pipeline is out: enrichers, minimum-level overrides, destructuring limits, the console sink and `SelfLog`. Only the decisions `AddSerilogConfiguration` takes from configuration are modelled.
  - `CreateBootstrapLogger` and `UseSerilogRequestLoggingConfiguration` only call the library.
- `GetMaxConcurrentWorkflows` reads an integer through the framework's converter and has no logic of its own.
- CustomerService.Update: requires the id to be present.
  - The code looks the customer up and passes the result on without a null check, so an absent id ends in an exception from the mapper or from Entity Framework rather than a not-found result.
  - The model does not decide which exception that is.
- CustomerRepository.Update: a missing row is reported by the call itself. Entity Framework reports it only when the change is saved, and with id 0 it would insert instead.
- CustomerRepository.Add: ids are unbounded integers; the database's 32-bit identity overflow is not modelled.
- CustomerRepository.GetById: reads the tracked context. `FindAsync` looks in the change tracker first and does not skip entries staged for deletion, so before a save it still returns a customer that was just deleted, while the model reports it absent. The service saves right after its delete, so its lookups never see the difference.
- CustomerRepository.GetAll: reads the tracked context, so it sees unsaved changes. `ToListAsync` queries the database instead: before a save it leaves out an added customer and still returns a deleted one. The service always saves right after each write, so its reads never see the difference.
- CustomerRepository.GetActive: reads the tracked context like `GetAll`, with the same difference before a save. It states which customers are listed, not their order. The order is the storage order, as `ActiveOnly` keeps it.
- CustomerRepository.Add: an explicit id that is already stored is refused at the call. Entity Framework refuses it at the call only when that row is tracked, and otherwise when the change is saved.
- Entities.NewEntityBase: `Guid.NewGuid` is random; it is modelled as a supply that never repeats a value, which is what the code relies on.
- AutoMapperConfig.FromCreateDto: the constructor's own `DateTime.UtcNow` read and the create rule's read are one `now`. In the code they are two reads microseconds apart, and the rule's value is the one kept.
- CustomerCreateDtoValidator.Validate: the e-mail format check (`EmailAddress`) is library code and is a parameter here.
- ConfigurationExtensions.Lookup: configuration keys are compared exactly. `IConfiguration` compares them ignoring case, so a key stored with different casing is found by the code and not by the model. Environment variables are compared exactly, as on Linux.
- SerilogExtensions.GetSwitch: the framework's boolean converter is a parameter; which strings it accepts is not modelled.
- SerilogExtensions.SinkTier: the `Serilog:WriteTo` section is given as its list of children. The flattening of indexed configuration keys into that list is not modelled.
- Calendar.AddYears: .NET throws when the year leaves 1..9999. This is a precondition here, and no call in the model can reach it.
- The `CustomerStatus` enumeration and `CustomerUpdateDto` are not part of this model.
  - Status is `Active` or another numbered member.
  - The update-input is taken to carry the create-input's members, so its names and phone overwrite the entity's. It follows that a phone-only update leaves the names null, as the scenario shows.
- `async`/`Task`, cancellation, and concurrent callers are out: every use case is one sequential step.

## Notes on the behaviour

- The create rule and the update rule take their timestamps from the clock, not from the input.
- The read rule's `FullName` is an interpolation, so a null name contributes nothing but the space stays: a customer with no names has `FullName == " "`.
- An update-input that leaves a name null erases that name. The five ignored members are the only ones protected.
- A set but blank environment variable hides a valid configuration value for the required settings. For the Application Insights connection string, a blank environment variable falls through to the next tier instead.
