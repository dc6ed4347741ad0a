/** `CustomerRepository` over Entity Framework, abstracted as two tables: the
    database, and the unit of work's view of it (the tracked context).
    Add, Update and Delete change the context only; SaveChanges publishes
    the context to the database. Reads go through the context. */
module CustomerRepository {
  import opened Wrappers
  import opened Entities

  /** A store of customers: rows by id, the ids in storage order, and the
      next key the store will generate. */
  datatype Table = Table(rows: map<int, Customer>, order: seq<int>, nextId: int)

  /** The ids listed in `order` are distinct and are exactly the keys of
      `rows`; each row carries its key; generated keys lie above every key. */
  predicate ValidTable(t: Table) {
    && (forall i :: 0 <= i < |t.order| ==> t.order[i] in t.rows)
    && (forall k :: k in t.rows ==> k in t.order)
    && Distinct(t.order)
    && (forall k :: k in t.rows ==> t.rows[k].id == k && k < t.nextId)
    && t.nextId >= 1
  }

  /** No id occurs twice. */
  predicate Distinct(s: seq<int>) {
    forall i, j :: 0 <= i < j < |s| ==> s[i] != s[j]
  }

  const EmptyTable: Table := Table(map[], [], 1)

  datatype RepositoryError = DuplicateKey(id: int) | NotFound(id: int)

  datatype Repository = Repository(database: Table, context: Table)

  predicate Valid(r: Repository) {
    ValidTable(r.database) && ValidTable(r.context)
  }

  /** No staged change is waiting to be saved. */
  predicate Committed(r: Repository) {
    r.database == r.context
  }

  /** The rows named by `order`, in that order. */
  function RowsInOrder(rows: map<int, Customer>, order: seq<int>): (s: seq<Customer>)
    requires forall i :: 0 <= i < |order| ==> order[i] in rows
    ensures |s| == |order|
    ensures forall i :: 0 <= i < |s| ==> s[i] == rows[order[i]]
  {
    if |order| == 0 then []
    else [rows[order[0]]] + RowsInOrder(rows, order[1..])
  }

  /** `order` without `id`, the rest kept in sequence. */
  function Without(order: seq<int>, id: int): (s: seq<int>)
    ensures forall x :: x in s <==> x in order && x != id
    ensures |s| <= |order|
    ensures id !in order ==> s == order
    ensures Distinct(order) ==> Distinct(s)
  {
    if |order| == 0 then []
    else
      var rest := Without(order[1..], id);
      if order[0] == id then rest
      else
        assert Distinct(order) ==> order[0] !in order[1..];
        [order[0]] + rest
  }

  /** The elements of `s` whose status is `Active`, in order. */
  function ActiveOnly(s: seq<Customer>): (r: seq<Customer>)
    ensures forall c :: c in r <==> c in s && c.status == Active
    ensures |r| <= |s|
    ensures (forall i :: 0 <= i < |s| ==> s[i].status == Active) ==> r == s
  {
    if |s| == 0 then []
    else if s[0].status == Active then [s[0]] + ActiveOnly(s[1..])
    else ActiveOnly(s[1..])
  }

  /** `GetByIdAsync` (`FindAsync` on the key): the customer with that id, or
      null when there is none. */
  function GetById(r: Repository, id: int): (c: Option<Customer>)
    requires Valid(r)
    ensures c.Some? <==> id in r.context.rows
    ensures c.Some? ==> c.value.id == id && c.value in GetAll(r)
  {
    if id in r.context.rows then Some(r.context.rows[id]) else None
  }

  /** `GetAllAsync`: every stored customer, once each, in storage order. */
  function GetAll(r: Repository): (s: seq<Customer>)
    requires Valid(r)
    ensures |s| == |r.context.rows|
    ensures forall c :: c in s ==> c.id in r.context.rows && r.context.rows[c.id] == c
    ensures forall k :: k in r.context.rows ==> r.context.rows[k] in s
    ensures forall i, j :: 0 <= i < j < |s| ==> s[i].id != s[j].id
  {
    var s := RowsInOrder(r.context.rows, r.context.order);
    DistinctOrderCoversRows(r.context);
    forall c | c in s ensures c.id in r.context.rows && r.context.rows[c.id] == c {
      var i :| 0 <= i < |s| && s[i] == c;
    }
    forall k | k in r.context.rows ensures r.context.rows[k] in s {
      var i :| 0 <= i < |r.context.order| && r.context.order[i] == k;
      assert s[i] == r.context.rows[k];
    }
    s
  }

  /** `GetAll` lists the rows in storage order: its i-th entry is the row of
      the i-th id in the order. */
  lemma GetAllInStorageOrder(r: Repository)
    requires Valid(r)
    ensures |GetAll(r)| == |r.context.order|
    ensures forall i :: 0 <= i < |r.context.order| ==> GetAll(r)[i] == r.context.rows[r.context.order[i]]
  {
    DistinctOrderCoversRows(r.context);
  }

  /** A valid table lists exactly as many ids as it has rows. */
  lemma DistinctOrderCoversRows(t: Table)
    requires ValidTable(t)
    ensures |t.order| == |t.rows|
  {
    var ids := set i | 0 <= i < |t.order| :: t.order[i];
    forall k | k in t.rows ensures k in ids {
      var i :| 0 <= i < |t.order| && t.order[i] == k;
    }
    assert ids == t.rows.Keys;
    DistinctSeqCardinality(t.order);
  }

  /** A sequence without repetitions has as many distinct elements as entries. */
  lemma {:induction false} DistinctSeqCardinality(s: seq<int>)
    requires Distinct(s)
    ensures |set i | 0 <= i < |s| :: s[i]| == |s|
  {
    if |s| > 0 {
      var tail := s[1..];
      DistinctSeqCardinality(tail);
      var all := set i | 0 <= i < |s| :: s[i];
      var rest := set i | 0 <= i < |tail| :: tail[i];
      assert all == {s[0]} + rest by {
        forall x | x in all ensures x in {s[0]} + rest {
          var i :| 0 <= i < |s| && s[i] == x;
          if i > 0 { assert tail[i - 1] == x; }
        }
      }
      assert s[0] !in rest;
    }
  }

  /** `GetActiveAsync`: the stored customers whose status is `Active`. */
  function GetActive(r: Repository): (s: seq<Customer>)
    requires Valid(r)
    ensures forall c :: c in s <==> c in GetAll(r) && c.status == Active
  {
    ActiveOnly(GetAll(r))
  }

  /** `AddAsync`: stages a new row. A zero id is replaced by the next
      generated key; an explicit id that is already stored is refused. */
  function Add(r: Repository, c: Customer): (result: Result<(Repository, Customer), RepositoryError>)
    requires Valid(r)
    ensures result.Success? <==> c.id == 0 || c.id !in r.context.rows
    ensures result.Success? ==>
      var (r', stored) := result.value;
      && Valid(r') && r'.database == r.database
      && stored.id !in r.context.rows
      && (c.id != 0 ==> stored.id == c.id)
      && stored == c.(id := stored.id)
      && r'.context.rows == r.context.rows[stored.id := stored]
      && r'.context.order == r.context.order + [stored.id]
  {
    var t := r.context;
    if c.id == 0 then
      var stored := c.(id := t.nextId);
      Success((r.(context := Table(t.rows[t.nextId := stored], t.order + [t.nextId], t.nextId + 1)), stored))
    else if c.id in t.rows then
      Failure(DuplicateKey(c.id))
    else
      var next := if c.id >= t.nextId then c.id + 1 else t.nextId;
      Success((r.(context := Table(t.rows[c.id := c], t.order + [c.id], next)), c))
  }

  /** `UpdateAsync`: the row with the customer's id is replaced, position and
      all other rows kept. Entity Framework reports a missing row when the
      change is saved; here it is reported by the call. */
  function Update(r: Repository, c: Customer): (result: Result<Repository, RepositoryError>)
    requires Valid(r)
    ensures result.Success? <==> c.id in r.context.rows
    ensures result.Success? ==>
      && Valid(result.value) && result.value.database == r.database
      && result.value.context.rows == r.context.rows[c.id := c]
      && result.value.context.order == r.context.order
  {
    var t := r.context;
    if c.id in t.rows then Success(r.(context := t.(rows := t.rows[c.id := c])))
    else Failure(NotFound(c.id))
  }

  /** `DeleteAsync`: the row with that id is staged for removal; an absent id
      is silently ignored. */
  function Delete(r: Repository, id: int): (r': Repository)
    requires Valid(r)
    ensures Valid(r') && r'.database == r.database
    ensures r'.context.rows.Keys == r.context.rows.Keys - {id}
    ensures forall k :: k in r'.context.rows ==> r'.context.rows[k] == r.context.rows[k]
    ensures id !in r.context.rows ==> r' == r
  {
    match GetById(r, id)
    case Some(c) =>
      RemovePreservesValid(r.context, id);
      r.(context := Remove(r.context, id))
    case None => r
  }

  /** The table without the row for `id`. */
  function Remove(t: Table, id: int): Table {
    Table(t.rows - {id}, Without(t.order, id), t.nextId)
  }

  lemma RemovePreservesValid(t: Table, id: int)
    requires ValidTable(t)
    ensures ValidTable(Remove(t, id))
  {
    var t' := Remove(t, id);
    forall i | 0 <= i < |t'.order| ensures t'.order[i] in t'.rows {
      assert t'.order[i] in t'.order;
    }
    forall k | k in t'.rows ensures k in t'.order {
      assert k in t.order;
    }
  }

  /** `SaveChangesAsync`: the context becomes the database. */
  function SaveChanges(r: Repository): (r': Repository)
    requires Valid(r)
    ensures Valid(r') && Committed(r')
    ensures r'.context == r.context
  {
    r.(database := r.context)
  }

  /** Listing a table after appending a new row to it: the old listing
      followed by the new row. */
  lemma RowsInOrderAppend(rows: map<int, Customer>, order: seq<int>, id: int, c: Customer)
    requires forall i :: 0 <= i < |order| ==> order[i] in rows
    requires id !in rows
    ensures RowsInOrder(rows[id := c], order + [id]) == RowsInOrder(rows, order) + [c]
  {
    var before := RowsInOrder(rows, order);
    var after := RowsInOrder(rows[id := c], order + [id]);
    forall i | 0 <= i < |before|
      ensures after[i] == before[i]
    {
      assert (order + [id])[i] == order[i];
    }
    assert after[|before|] == c;
  }

  /** After an add and a save, the added customer is found by id and listed
      by `GetAll`, after everything that was there before. */
  lemma AddThenSaveIsVisible(r: Repository, c: Customer)
    requires Valid(r)
    requires c.id == 0
    ensures Add(r, c).Success?
    ensures GetById(SaveChanges(Add(r, c).value.0), Add(r, c).value.1.id) == Some(Add(r, c).value.1)
    ensures GetAll(SaveChanges(Add(r, c).value.0)) == GetAll(r) + [Add(r, c).value.1]
  {
    var r' := Add(r, c).value.0;
    var stored := Add(r, c).value.1;
    RowsInOrderAppend(r.context.rows, r.context.order, stored.id, stored);
  }
}
