/** services/customerService.js */
module CustomerService {
  import opened Js
  import opened Outcomes
  import opened Schema
  import Store
  import Rows
  import PartialUpdate

  /** The columns `updateCustomer` accepts, in the order it tests them. */
  const Columns: seq<string> := ["first_name", "last_name", "email", "phone", "address"]

  /** A customer's updatable cells, in `Columns` order. */
  function Cells(c: Customer): (cells: seq<JsVal>)
    ensures |cells| == |Columns|
  {
    [c.firstName, c.lastName, c.email, c.phone, c.address]
  }

  function WithCells(c: Customer, cells: seq<JsVal>): (r: Customer)
    requires |cells| == |Columns|
    ensures r.id == c.id && Cells(r) == cells
  {
    Customer(c.id, cells[0], cells[1], cells[2], cells[3], cells[4])
  }

  /** A customer after a partial update with `data`. */
  function Updated(c: Customer, data: Object): Customer
  {
    WithCells(c, PartialUpdate.Merge(Columns, data, Cells(c)))
  }

  /** `getAllCustomers`: every customer, by ascending id. */
  function GetAllCustomers(t: Tables): (r: seq<Customer>)
    requires Rows.Ascending(t.customers, CustomerKey)
    ensures multiset(r) == multiset(t.customers)
    ensures forall i, j :: 0 <= i < j < |r| ==> r[i].id < r[j].id
  {
    t.customers
  }

  /** `getCustomerById`: the customer with that id, or nothing. */
  function GetCustomerById(t: Tables, id: nat): (r: Option<Customer>)
    ensures r.Some? ==> r.value in t.customers && r.value.id == id
    ensures r.None? <==> forall c :: c in t.customers ==> c.id != id
  {
    Rows.Find(t.customers, CustomerKey, id)
  }

  /** `createCustomer`: the names and the email are stored as given; a falsy
      phone or address is stored as NULL. The route has already refused a
      falsy first name, last name or email. */
  method CreateCustomer(db: Store.Database, data: Object) returns (c: Customer)
    requires db.Valid()
    requires Truthy(Get(data, "first_name")) && Truthy(Get(data, "last_name")) && Truthy(Get(data, "email"))
    modifies db
    ensures db.Valid()
    ensures c.id == old(db.next.customer)
    ensures c.firstName == Get(data, "first_name") && c.lastName == Get(data, "last_name") && c.email == Get(data, "email")
    ensures c.phone == (if Falsy(Get(data, "phone")) then Null else Get(data, "phone"))
    ensures c.address == (if Falsy(Get(data, "address")) then Null else Get(data, "address"))
    ensures db.tables == old(db.tables).(customers := old(db.tables.customers) + [c])
    ensures db.next == old(db.next).(customer := old(db.next.customer) + 1)
  {
    c := db.InsertCustomer(Get(data, "first_name"), Get(data, "last_name"), Get(data, "email"),
      Or(Get(data, "phone"), Null), Or(Get(data, "address"), Null));
  }

  /** `updateCustomer`: fails with `NoFieldsToUpdate`, changing nothing, when
      no allow-listed field is supplied; otherwise the customer with that id
      takes the supplied fields (null included) and keeps the others, every
      other row and table stays as it was, and the updated row is returned,
      or nothing when no customer has that id. */
  method UpdateCustomer(db: Store.Database, id: nat, data: Object) returns (r: Result<Option<Customer>>)
    requires db.Valid()
    modifies db
    ensures db.Valid() && db.next == old(db.next)
    ensures r.Failure? <==> forall j :: 0 <= j < |Columns| ==> Get(data, Columns[j]) == Undefined
    ensures r.Failure? ==> r.error == NoFieldsToUpdate && db.tables == old(db.tables)
    ensures r.Success? ==>
      db.tables == old(db.tables).(customers := Rows.Patch(old(db.tables.customers), CustomerKey, id, (c: Customer) => Updated(c, data)))
    ensures r.Success? ==>
      var found := GetCustomerById(old(db.tables), id);
      r.value == if found.None? then None else Some(Updated(found.value, data))
  {
    var built := PartialUpdate.Build(Columns, data, id);
    if built.Failure? {
      return Failure(built.error);
    }
    var cmd := built.value;
    PatchesAsUpdated(db.tables.customers, db.next.customer, data, id, cmd);
    db.tables := db.tables.(customers := Rows.Patch(db.tables.customers, CustomerKey, id, Run(cmd)));
    r := Success(Rows.Find(db.tables.customers, CustomerKey, id));
  }

  /** What the store does to a customer when it runs `cmd`. */
  function Run(cmd: PartialUpdate.Command): Customer -> Customer
    requires PartialUpdate.Runs(Columns, cmd.sets, cmd.values)
  {
    (c: Customer) => WithCells(c, PartialUpdate.Assign(Columns, cmd.sets, cmd.values, Cells(c)))
  }

  /** Running the built command on the table is the intended update of the
      customer with that id. */
  lemma PatchesAsUpdated(before: seq<Customer>, next: nat, data: Object, id: nat, cmd: PartialUpdate.Command)
    requires Rows.Keyed(before, CustomerKey, next)
    requires PartialUpdate.Describes(cmd, PartialUpdate.Supplied(Columns, data), id)
    ensures PartialUpdate.Runs(Columns, cmd.sets, cmd.values)
    ensures Rows.Patch(before, CustomerKey, id, Run(cmd)) == Rows.Patch(before, CustomerKey, id, (c: Customer) => Updated(c, data))
    ensures Rows.Keyed(Rows.Patch(before, CustomerKey, id, Run(cmd)), CustomerKey, next)
    ensures Rows.Find(Rows.Patch(before, CustomerKey, id, Run(cmd)), CustomerKey, id)
      == if Rows.Find(before, CustomerKey, id).None? then None else Some(Updated(Rows.Find(before, CustomerKey, id).value, data))
  {
    RunsAsUpdated(data, id, cmd);
    Rows.PatchAs(before, CustomerKey, next, id, Run(cmd), (c: Customer) => Updated(c, data));
  }

  /** The store runs the command `Build` made from `data` on any customer as
      the intended partial update of that customer. */
  lemma RunsAsUpdated(data: Object, id: nat, cmd: PartialUpdate.Command)
    requires PartialUpdate.Describes(cmd, PartialUpdate.Supplied(Columns, data), id)
    ensures PartialUpdate.Runs(Columns, cmd.sets, cmd.values)
    ensures forall c: Customer :: WithCells(c, PartialUpdate.Assign(Columns, cmd.sets, cmd.values, Cells(c))) == Updated(c, data)
  {
    assert PartialUpdate.Distinct(Columns);
    PartialUpdate.ExecuteBuilt(Columns, data, id, cmd, Cells(Customer(0, Null, Null, Null, Null, Null)));
    forall c: Customer
      ensures WithCells(c, PartialUpdate.Assign(Columns, cmd.sets, cmd.values, Cells(c))) == Updated(c, data)
    {
      PartialUpdate.ExecuteBuilt(Columns, data, id, cmd, Cells(c));
    }
  }

  /** `deleteCustomer`: removes the customer with that id and returns it, or
      returns nothing and changes nothing. No other table changes. */
  method DeleteCustomer(db: Store.Database, id: nat) returns (r: Option<Customer>)
    requires db.Valid()
    modifies db
    ensures db.Valid() && db.next == old(db.next)
    ensures r == GetCustomerById(old(db.tables), id)
    ensures r.None? ==> db.tables == old(db.tables)
    ensures r.Some? ==> db.tables == old(db.tables).(customers := db.tables.customers)
    ensures r.Some? ==> multiset(db.tables.customers) == multiset(old(db.tables.customers)) - multiset{r.value}
  {
    r := Rows.Find(db.tables.customers, CustomerKey, id);
    Rows.DeleteFound(db.tables.customers, CustomerKey, db.next.customer, id);
    db.tables := db.tables.(customers := Rows.Delete(db.tables.customers, CustomerKey, id));
  }
}
