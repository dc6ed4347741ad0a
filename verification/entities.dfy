/** The domain entities: `Customer` (keyed by an `int` the store assigns) and
    `EntityBase` (keyed by a `Guid`, with timestamps and a soft-delete
    marker). `Customer` does not derive from `EntityBase` and so does not
    satisfy the `IEntity` bound of the Guid-keyed generic repository. */
module Entities {
  import opened Wrappers
  import opened Text
  import opened Calendar

  /** `CustomerStatus`. Only `Active` is named by the code; every other
      member of the enumeration is represented by its underlying value. */
  datatype CustomerStatus = Active | Other(value: int)

  datatype Customer = Customer(
    id: int,
    firstName: NullableString,
    lastName: NullableString,
    email: NullableString,
    phoneNumber: NullableString,
    birthDate: ValidDateTime,
    status: CustomerStatus,
    createdAt: ValidDateTime,
    updatedAt: Option<ValidDateTime>)

  /** `new Customer()` at instant `now`: every property at its CLR default
      except `CreatedAt` and `Status`, which the constructor sets. */
  function NewCustomer(now: ValidDateTime): (c: Customer)
    ensures c.status == Active
    ensures c.createdAt == now
    ensures c.updatedAt == None
    ensures c.id == 0
    ensures c.firstName == c.lastName == c.email == c.phoneNumber == None
    ensures c.birthDate == DefaultDateTime
  {
    Customer(0, None, None, None, None, DefaultDateTime, Active, now, None)
  }

  /** A `Guid`; `Guid.NewGuid` is modelled as a supply of fresh values. */
  type Guid = nat

  /** Every Guid handed out so far is below `next`. */
  datatype GuidSupply = GuidSupply(next: nat)

  datatype EntityBase = EntityBase(
    id: Guid,
    createdAt: ValidDateTime,
    updatedAt: Option<ValidDateTime>,
    isDeleted: bool,
    deletedAt: Option<ValidDateTime>)

  /** `DeletedAt` is present exactly when `IsDeleted` is set. The setters are
      public, so only construction establishes this. */
  predicate SoftDeleteConsistent(e: EntityBase) {
    e.deletedAt.Some? <==> e.isDeleted
  }

  /** The `EntityBase` constructor at instant `now`: a fresh `Id`, `CreatedAt`
      stamped, not deleted. Returns the supply after the draw. */
  function NewEntityBase(now: ValidDateTime, supply: GuidSupply): (r: (EntityBase, GuidSupply))
    ensures r.0.id >= supply.next && r.0.id < r.1.next
    ensures r.1.next > supply.next
    ensures r.0.createdAt == now && r.0.updatedAt == None
    ensures !r.0.isDeleted && r.0.deletedAt == None
    ensures SoftDeleteConsistent(r.0)
  {
    (EntityBase(supply.next, now, None, false, None), GuidSupply(supply.next + 1))
  }

  /** Entities constructed one after another at the given instants. */
  function ConstructAll(instants: seq<ValidDateTime>, supply: GuidSupply): (r: (seq<EntityBase>, GuidSupply))
    ensures |r.0| == |instants|
    ensures r.1.next >= supply.next
    decreases |instants|
  {
    if |instants| == 0 then ([], supply)
    else
      var first := NewEntityBase(instants[0], supply);
      var rest := ConstructAll(instants[1..], first.1);
      ([first.0] + rest.0, rest.1)
  }

  /** Every id in `es` lies in `[lo, hi)`. */
  predicate IdsWithin(es: seq<EntityBase>, lo: nat, hi: nat) {
    forall i :: 0 <= i < |es| ==> lo <= es[i].id < hi
  }

  /** No two entities of `es` share an id. */
  predicate IdsDistinct(es: seq<EntityBase>) {
    forall i, j :: 0 <= i < j < |es| ==> es[i].id != es[j].id
  }

  /** Each construction draws a Guid no earlier construction received, and
      none that was issued before the supply was handed over. */
  lemma {:induction false} ConstructedIdsAreFresh(instants: seq<ValidDateTime>, supply: GuidSupply)
    ensures IdsWithin(ConstructAll(instants, supply).0, supply.next, ConstructAll(instants, supply).1.next)
    ensures IdsDistinct(ConstructAll(instants, supply).0)
    decreases |instants|
  {
    if |instants| > 0 {
      var first := NewEntityBase(instants[0], supply);
      var rest := ConstructAll(instants[1..], first.1);
      ConstructedIdsAreFresh(instants[1..], first.1);
      var es := [first.0] + rest.0;
      assert ConstructAll(instants, supply) == (es, rest.1);
      forall i | 0 <= i < |es|
        ensures supply.next <= es[i].id < rest.1.next
      {
        if i > 0 {
          assert es[i] == rest.0[i - 1];
        }
      }
      forall i, j | 0 <= i < j < |es|
        ensures es[i].id != es[j].id
      {
        assert es[j] == rest.0[j - 1];
        if i > 0 {
          assert es[i] == rest.0[i - 1];
        }
      }
    }
  }

  /** Every freshly constructed entity satisfies the soft-delete invariant and
      has been neither updated nor deleted. */
  lemma {:induction false} ConstructedEntitiesAreClean(instants: seq<ValidDateTime>, supply: GuidSupply)
    ensures forall i :: 0 <= i < |ConstructAll(instants, supply).0| ==>
      && SoftDeleteConsistent(ConstructAll(instants, supply).0[i])
      && !ConstructAll(instants, supply).0[i].isDeleted
      && ConstructAll(instants, supply).0[i].createdAt == instants[i]
      && ConstructAll(instants, supply).0[i].updatedAt == None
    decreases |instants|
  {
    if |instants| > 0 {
      var first := NewEntityBase(instants[0], supply);
      ConstructedEntitiesAreClean(instants[1..], first.1);
      var rest := ConstructAll(instants[1..], first.1).0;
      assert ConstructAll(instants, supply).0 == [first.0] + rest;
    }
  }
}
