/** `CustomerService`: each use case composes repository operations with the
    mapping rules of the configured engine, and every mutating use case ends
    by saving, so it leaves no staged change behind. */
module CustomerService {
  import opened Wrappers
  import opened Calendar
  import opened Entities
  import opened Dtos
  import opened CustomerRepository
  import opened ObjectMapper
  import AutoMapperConfig

  /** `GetByIdAsync`: the read-output of the stored customer, or null when the
      store has none. Reading changes nothing. */
  function GetById(repo: Repository, id: int, engine: Engine, today: ValidDate): (d: Option<CustomerDto>)
    requires Valid(repo)
    ensures d.None? <==> id !in repo.context.rows
    ensures d.Some? ==> d.value == AutoMapperConfig.ToDto(repo.context.rows[id], today)
    ensures d.Some? ==> d.value.id == id
  {
    match CustomerRepository.GetById(repo, id)
    case Some(c) => Some(MapToDto(engine, c, today))
    case None => None
  }

  /** The read-outputs of `cs`, one per element, in order. */
  function MapAll(engine: Engine, cs: seq<Customer>, today: ValidDate): (ds: seq<CustomerDto>)
    ensures |ds| == |cs|
    ensures forall i :: 0 <= i < |cs| ==> ds[i] == AutoMapperConfig.ToDto(cs[i], today)
  {
    if |cs| == 0 then []
    else [MapToDto(engine, cs[0], today)] + MapAll(engine, cs[1..], today)
  }

  /** `GetAllAsync`: one read-output per stored customer, in the repository's
      order. */
  function GetAll(repo: Repository, engine: Engine, today: ValidDate): (ds: seq<CustomerDto>)
    requires Valid(repo)
    ensures |ds| == |repo.context.rows|
    ensures forall i :: 0 <= i < |ds| ==>
      ds[i] == AutoMapperConfig.ToDto(CustomerRepository.GetAll(repo)[i], today)
    ensures forall k :: k in repo.context.rows ==> AutoMapperConfig.ToDto(repo.context.rows[k], today) in ds
  {
    var all := CustomerRepository.GetAll(repo);
    var ds := MapAll(engine, all, today);
    forall k | k in repo.context.rows
      ensures AutoMapperConfig.ToDto(repo.context.rows[k], today) in ds
    {
      var i :| 0 <= i < |all| && all[i] == repo.context.rows[k];
      assert ds[i] == AutoMapperConfig.ToDto(repo.context.rows[k], today);
    }
    ds
  }

  /** `CreateAsync`: maps the input to a new customer, adds it, saves, and
      returns the read-output of the stored customer with its generated id.
      Exactly one customer is added. */
  function Create(repo: Repository, input: CustomerCreateDto, engine: Engine,
                  now: ValidDateTime, today: ValidDate): (result: (Repository, CustomerDto))
    requires Valid(repo)
    ensures Valid(result.0) && Committed(result.0)
    ensures result.1.id !in repo.context.rows
    ensures result.0.context.rows
         == repo.context.rows[result.1.id := AutoMapperConfig.FromCreateDto(input, now).(id := result.1.id)]
    ensures result.0.context.order == repo.context.order + [result.1.id]
    ensures result.1 == AutoMapperConfig.ToDto(result.0.context.rows[result.1.id], today)
    ensures result.1.isActive
    ensures result.1.email == input.email
    ensures result.1.fullName == Text.Interpolate(input.firstName) + " " + Text.Interpolate(input.lastName)
    ensures result.1.createdAt == now
    ensures result.1.age == today.year - input.birthDate.date.year
                            - (if MonthDayBefore(today, input.birthDate.date) then 1 else 0)
  {
    var entity := MapToCustomer(engine, input, now);
    var (staged, stored) := CustomerRepository.Add(repo, entity).value;
    (SaveChanges(staged), MapToDto(engine, stored, today))
  }

  /** The store after `UpdateAsync`: the update rule applied to the stored
      customer, written back and saved. */
  function UpdateStored(repo: Repository, id: int, input: CustomerUpdateDto, engine: Engine,
                        now: ValidDateTime): (repo': Repository)
    requires Valid(repo)
    requires id in repo.context.rows
    ensures Valid(repo') && Committed(repo')
    ensures repo'.context.rows == repo.context.rows[id := AutoMapperConfig.ApplyUpdateDto(input, repo.context.rows[id], now)]
    ensures repo'.context.order == repo.context.order
  {
    var changed := MapOnto(engine, input, CustomerRepository.GetById(repo, id).value, now);
    SaveChanges(CustomerRepository.Update(repo, changed).value)
  }

  /** `UpdateAsync`. The source dereferences the looked-up customer without a
      null check, so the id must be present. The stored customer keeps its
      `Id`, `Email`, `BirthDate`, `Status` and `CreatedAt`, gets `UpdatedAt =
      now`, and every other customer is left as it was. */
  function Update(repo: Repository, id: int, input: CustomerUpdateDto, engine: Engine,
                  now: ValidDateTime, today: ValidDate): (result: (Repository, CustomerDto))
    requires Valid(repo)
    requires id in repo.context.rows
    ensures Valid(result.0) && Committed(result.0)
    ensures result.0.context.rows.Keys == repo.context.rows.Keys
    ensures result.0.context.order == repo.context.order
    ensures forall k :: k in repo.context.rows && k != id ==>
      result.0.context.rows[k] == repo.context.rows[k]
    ensures var before := repo.context.rows[id];
      var after := result.0.context.rows[id];
      && after.id == before.id && after.email == before.email
      && after.birthDate == before.birthDate && after.status == before.status
      && after.createdAt == before.createdAt
      && after.updatedAt == Some(now)
      && after.firstName == input.firstName && after.lastName == input.lastName
      && after.phoneNumber == input.phoneNumber
    ensures result.1 == AutoMapperConfig.ToDto(result.0.context.rows[id], today)
  {
    var repo' := UpdateStored(repo, id, input, engine, now);
    (repo', MapToDto(engine, repo'.context.rows[id], today))
  }

  /** `DeleteAsync`: removes the customer if present and saves; an absent id
      is a silent no-op. */
  function Delete(repo: Repository, id: int): (repo': Repository)
    requires Valid(repo)
    ensures Valid(repo') && Committed(repo')
    ensures id !in repo'.context.rows
    ensures repo'.context.rows.Keys == repo.context.rows.Keys - {id}
    ensures forall k :: k in repo'.context.rows ==> repo'.context.rows[k] == repo.context.rows[k]
    ensures id !in repo.context.rows ==> repo'.context == repo.context
  {
    SaveChanges(CustomerRepository.Delete(repo, id))
  }

  /** After a delete, looking the id up finds nothing. */
  lemma DeleteThenGetByIdIsAbsent(repo: Repository, id: int, engine: Engine, today: ValidDate)
    requires Valid(repo)
    ensures GetById(Delete(repo, id), id, engine, today) == None
  {
  }
}
