/** services/bookingService.js */
module BookingService {
  import opened Js
  import opened Outcomes
  import opened Schema
  import Store
  import Rows
  import PartialUpdate
  import RoomBookingService

  /** The columns `updateBooking` accepts, in the order it tests them. */
  const Columns: seq<string> := ["customer_id", "check_in_date", "check_out_date", "total_amount", "status"]

  /** A booking's updatable cells, in `Columns` order. */
  function Cells(b: Booking): (cells: seq<JsVal>)
    ensures |cells| == |Columns|
  {
    [b.customerId, b.checkInDate, b.checkOutDate, b.totalAmount, b.status]
  }

  function WithCells(b: Booking, cells: seq<JsVal>): (r: Booking)
    requires |cells| == |Columns|
    ensures r.id == b.id && Cells(r) == cells
  {
    Booking(b.id, cells[0], cells[1], cells[2], cells[3], cells[4])
  }

  /** A booking after a partial update with `data`. */
  function Updated(b: Booking, data: Object): Booking
  {
    WithCells(b, PartialUpdate.Merge(Columns, data, Cells(b)))
  }

  /** An association row `COUNT(rb.room_id)` counts for that booking: one
      of its associations whose room column is not NULL. */
  predicate Counted(bookingId: nat, link: RoomBooking)
  {
    link.bookingId == Num(bookingId) && link.roomId != Null
  }

  function RoomCount(t: Tables, bookingId: nat): nat
  {
    Rows.Count(t.roomBookings, (x: RoomBooking) => Counted(bookingId, x))
  }

  /** A booking with its customer (`LEFT JOIN customers`) and its number of rooms. */
  datatype BookingSummary = BookingSummary(booking: Booking, customer: Option<Customer>, roomCount: nat)
  {
    function FirstName(): JsVal { if customer.Some? then customer.value.firstName else Null }
    function LastName(): JsVal { if customer.Some? then customer.value.lastName else Null }
    function Email(): JsVal { if customer.Some? then customer.value.email else Null }
  }

  /** `getAllBookings`: one row per booking, by ascending id, with its
      customer where it exists and its number of assigned rooms, 0 when it
      has none. */
  function GetAllBookings(t: Tables): (r: seq<BookingSummary>)
    requires Rows.Ascending(t.bookings, BookingKey)
    ensures |r| == |t.bookings|
    ensures forall i, j :: 0 <= i < j < |r| ==> r[i].booking.id < r[j].booking.id
    ensures forall i :: 0 <= i < |r| ==>
      && r[i].booking == t.bookings[i]
      && Rows.Joins(t.customers, CustomerKey, r[i].booking.customerId, r[i].customer)
      && r[i].roomCount == RoomCount(t, r[i].booking.id)
  {
    seq(|t.bookings|, i requires 0 <= i < |t.bookings| =>
      BookingSummary(t.bookings[i], Rows.Ref(t.customers, CustomerKey, t.bookings[i].customerId), RoomCount(t, t.bookings[i].id)))
  }

  /** A booking with no association counts no room. */
  lemma NoLinksNoRooms(t: Tables, bookingId: nat)
    requires forall k :: 0 <= k < |t.roomBookings| ==> t.roomBookings[k].bookingId != Num(bookingId)
    ensures RoomCount(t, bookingId) == 0
  {
    Rows.FilterNone(t.roomBookings, (x: RoomBooking) => Counted(bookingId, x));
  }

  /** Assigning a room to a booking adds one to its room count and leaves
      every other booking's count alone. */
  lemma AssignCountsRoom(t: Tables, bookingId: nat, roomId: nat, price: JsVal, other: nat)
    requires other != bookingId
    ensures var t' := t.(roomBookings := t.roomBookings + [RoomBooking(Num(bookingId), Num(roomId), price)]);
      RoomCount(t', bookingId) == RoomCount(t, bookingId) + 1 && RoomCount(t', other) == RoomCount(t, other)
  {
    var link := RoomBooking(Num(bookingId), Num(roomId), price);
    Rows.CountAppend(t.roomBookings, (x: RoomBooking) => Counted(bookingId, x), link);
    Rows.CountAppend(t.roomBookings, (x: RoomBooking) => Counted(other, x), link);
  }

  /** One element of the `rooms` list of `getBookingById`: the room's id,
      number and type name and the association's price. Unlike the list of
      `getBookingsByCustomerId`, it carries no hotel name. */
  datatype BookedRoom = BookedRoom(roomId: JsVal, roomNumber: JsVal, typeName: JsVal, price: JsVal)

  /** The columns of a room entry that `getBookingById` selects. */
  function Brief(e: RoomBookingService.RoomEntry): (b: BookedRoom)
    ensures b.roomId == e.roomId && b.roomNumber == e.roomNumber && b.typeName == e.typeName && b.price == e.price
  {
    BookedRoom(e.roomId, e.roomNumber, e.typeName, e.price)
  }

  function Briefs(es: seq<RoomBookingService.RoomEntry>): (r: seq<BookedRoom>)
    ensures |r| == |es|
    ensures forall k :: 0 <= k < |r| ==> r[k] == Brief(es[k])
  {
    seq(|es|, k requires 0 <= k < |es| => Brief(es[k]))
  }

  /** A booking with its customer (`LEFT JOIN customers`) and its rooms. */
  datatype BookingDetail = BookingDetail(booking: Booking, customer: Option<Customer>, rooms: seq<BookedRoom>)
  {
    function FirstName(): JsVal { if customer.Some? then customer.value.firstName else Null }
    function LastName(): JsVal { if customer.Some? then customer.value.lastName else Null }
    function Email(): JsVal { if customer.Some? then customer.value.email else Null }
    function Phone(): JsVal { if customer.Some? then customer.value.phone else Null }
  }

  /** `getBookingById`: the booking with that id, its customer's names,
      email and phone where the customer exists, and one room entry per
      association, or nothing. */
  function GetBookingById(t: Tables, id: nat): (r: Option<BookingDetail>)
    ensures r.None? <==> forall k :: 0 <= k < |t.bookings| ==> t.bookings[k].id != id
    ensures r.Some? ==> r.value.booking in t.bookings && r.value.booking.id == id
    ensures r.Some? ==> Rows.Joins(t.customers, CustomerKey, r.value.booking.customerId, r.value.customer)
    ensures r.Some? ==> |r.value.rooms| == |RoomBookingService.Links(t, id)|
    ensures r.Some? ==> forall k :: 0 <= k < |r.value.rooms| ==>
      r.value.rooms[k] == Brief(RoomBookingService.EntryOf(t, RoomBookingService.Links(t, id)[k]))
  {
    var found := Rows.Find(t.bookings, BookingKey, id);
    if found.None? then
      None
    else
      Some(BookingDetail(found.value, Rows.Ref(t.customers, CustomerKey, found.value.customerId), Briefs(RoomBookingService.Rooms(t, id))))
  }

  /** As written, `getBookingById` gives a booking with no association a
      one-entry `rooms` list whose four columns are NULL; the corrected list
      is empty. */
  lemma PhantomBookedRoom(t: Tables, id: nat)
    requires forall k :: 0 <= k < |t.roomBookings| ==> !RoomBookingService.OfBooking(id, t.roomBookings[k])
    ensures Briefs(RoomBookingService.RoomsAsWritten(t, id)) == [BookedRoom(Null, Null, Null, Null)]
    ensures forall d :: GetBookingById(t, id) == Some(d) ==> d.rooms == []
  {
    RoomBookingService.PhantomRoom(t, id);
  }

  /** The rooms `createBooking` assigns: the elements of `room_ids` when it
      is an array, none otherwise. */
  function RoomIds(data: Object): seq<JsVal>
  {
    var v := Get(data, "room_ids");
    if v.Arr? then v.elems else []
  }

  /** The association rows for a new booking: one per requested room, in
      order and with repeats, each at price 0. */
  function NewLinks(bookingId: nat, roomIds: seq<JsVal>): (r: seq<RoomBooking>)
    ensures |r| == |roomIds|
    ensures forall i :: 0 <= i < |r| ==> r[i] == RoomBooking(Num(bookingId), Stored(roomIds[i]), Num(0))
  {
    seq(|roomIds|, i requires 0 <= i < |roomIds| => RoomBooking(Num(bookingId), Stored(roomIds[i]), Num(0)))
  }

  /** The booking header `createBooking` inserts, given the id its sequence
      hands out: a falsy total becomes 0 and a falsy status 'pending'. */
  function Header(id: nat, data: Object): Booking
  {
    Booking(id, Stored(Get(data, "customer_id")), Stored(Get(data, "check_in_date")), Stored(Get(data, "check_out_date")),
      Or(Get(data, "total_amount"), Num(0)), Or(Get(data, "status"), Str("pending")))
  }

  /** Whether the store rejects one of the inserts of `createBooking`:
      `rejected` holds 0 for the header and n for the n-th room. */
  predicate Rejected(rejected: set<nat>, rooms: nat)
  {
    exists n :: n in rejected && n <= rooms
  }

  /** `createBooking`: in one transaction, inserts the header and then one
      association per requested room. Either every insert succeeds, the
      transaction commits and the header is returned, or one fails, the
      transaction rolls back so that no table has changed, and that failure
      is returned. Either way the client goes back to the pool, and the
      booking id sequence has moved on by one: the header insert draws an id
      even when it is rejected, and the rollback does not return it. */
  method CreateBooking(db: Store.Database, data: Object, rejected: set<nat>) returns (r: Result<Booking>, client: Store.Client)
    requires db.Valid()
    requires Truthy(Get(data, "customer_id")) && Truthy(Get(data, "check_in_date")) && Truthy(Get(data, "check_out_date"))
    modifies db
    ensures fresh(client) && client.db == db && client.released && client.snapshot == None
    ensures db.Valid()
    ensures db.next == old(db.next).(booking := old(db.next.booking) + 1)
    ensures r.Failure? <==> Rejected(rejected, |RoomIds(data)|)
    ensures r.Failure? ==> r.error == QueryFailed && db.tables == old(db.tables)
    ensures r.Success? ==>
      && r.value == Header(old(db.next.booking), data)
      && db.tables == old(db.tables).(bookings := old(db.tables.bookings) + [r.value],
                                      roomBookings := old(db.tables.roomBookings) + NewLinks(r.value.id, RoomIds(data)))
  {
    client := new Store.Client(db);
    client.Begin();
    r := InsertAll(db, data, rejected);
    if r.Failure? {
      client.Rollback();
      client.Release();
      return;
    }
    client.Commit();
    client.Release();
  }

  /** The statements `createBooking` runs inside its transaction: the header,
      then one association per requested room, stopping at the first insert
      the store rejects. On failure the tables are left for the rollback;
      the header drew one booking id whether or not it was rejected, so the
      tables at `BEGIN` stay keyed. */
  method InsertAll(db: Store.Database, data: Object, rejected: set<nat>) returns (r: Result<Booking>)
    requires db.Valid()
    modifies db
    ensures db.Valid() && Keyed(old(db.tables), db.next)
    ensures db.next == old(db.next).(booking := old(db.next.booking) + 1)
    ensures r.Failure? <==> Rejected(rejected, |RoomIds(data)|)
    ensures r.Failure? ==> r.error == QueryFailed
    ensures r.Success? ==>
      && r.value == Header(old(db.next.booking), data)
      && db.tables == old(db.tables).(bookings := old(db.tables.bookings) + [r.value],
                                      roomBookings := old(db.tables.roomBookings) + NewLinks(r.value.id, RoomIds(data)))
  {
    var header := db.InsertBooking(Get(data, "customer_id"), Get(data, "check_in_date"), Get(data, "check_out_date"),
      Or(Get(data, "total_amount"), Num(0)), Or(Get(data, "status"), Str("pending")), 0 in rejected);
    KeyedLater(old(db.tables), old(db.next), db.next);
    if header.Failure? {
      assert 0 in rejected;
      return header;
    }
    var links := InsertLinks(db, header.value.id, RoomIds(data), rejected);
    if links.Failure? {
      return Failure(links.error);
    }
    assert forall n :: n in rejected ==> n > |RoomIds(data)|;
    r := header;
  }

  /** The loop of `createBooking` over `room_ids`: inserts one association
      per requested room, in order, and stops at the first the store rejects
      (the n-th room is rejected when n is in `rejected`). */
  method InsertLinks(db: Store.Database, bookingId: nat, roomIds: seq<JsVal>, rejected: set<nat>)
    returns (r: Result<seq<RoomBooking>>)
    requires db.Valid()
    modifies db
    ensures db.Valid() && db.next == old(db.next)
    ensures r.Failure? <==> exists n :: n in rejected && 1 <= n <= |roomIds|
    ensures r.Failure? ==> r.error == QueryFailed
    ensures r.Success? ==>
      && r.value == NewLinks(bookingId, roomIds)
      && db.tables == old(db.tables).(roomBookings := old(db.tables.roomBookings) + r.value)
  {
    var i := 0;
    while i < |roomIds|
      invariant 0 <= i <= |roomIds|
      invariant db.Valid() && db.next == old(db.next)
      invariant forall n :: n in rejected ==> !(1 <= n <= i)
      invariant db.tables == old(db.tables).(roomBookings := old(db.tables.roomBookings) + NewLinks(bookingId, roomIds[..i]))
    {
      var link := db.InsertRoomBooking(Num(bookingId), roomIds[i], Num(0), i + 1 in rejected);
      if link.Failure? {
        return Failure(link.error);
      }
      assert NewLinks(bookingId, roomIds[..i + 1]) == NewLinks(bookingId, roomIds[..i]) + [link.value];
      i := i + 1;
    }
    assert roomIds[..i] == roomIds;
    r := Success(NewLinks(bookingId, roomIds));
  }

  /** A new booking's room count is the number of rooms it was created with,
      when none of them is null and no association named its id before. */
  lemma CreatedRoomCount(t: Tables, bookingId: nat, roomIds: seq<JsVal>)
    requires forall k :: 0 <= k < |t.roomBookings| ==> t.roomBookings[k].bookingId != Num(bookingId)
    requires forall i :: 0 <= i < |roomIds| ==> roomIds[i] != Null && roomIds[i] != Undefined
    ensures RoomCount(t.(roomBookings := t.roomBookings + NewLinks(bookingId, roomIds)), bookingId) == |roomIds|
  {
    var p := (x: RoomBooking) => Counted(bookingId, x);
    var links := NewLinks(bookingId, roomIds);
    Rows.CountConcat(t.roomBookings, links, p);
    NoLinksNoRooms(t, bookingId);
    Rows.FilterAll(links, p);
  }

  /** `updateBooking`: fails with `NoFieldsToUpdate`, changing nothing, when
      no allow-listed field is supplied; otherwise the booking with that id
      takes the supplied fields (null included) and keeps the others, every
      other row and table stays as it was, and the updated row is returned,
      or nothing when no booking has that id. */
  method UpdateBooking(db: Store.Database, id: nat, data: Object) returns (r: Result<Option<Booking>>)
    requires db.Valid()
    modifies db
    ensures db.Valid() && db.next == old(db.next)
    ensures r.Failure? <==> forall j :: 0 <= j < |Columns| ==> Get(data, Columns[j]) == Undefined
    ensures r.Failure? ==> r.error == NoFieldsToUpdate && db.tables == old(db.tables)
    ensures r.Success? ==>
      db.tables == old(db.tables).(bookings := Rows.Patch(old(db.tables.bookings), BookingKey, id, (b: Booking) => Updated(b, data)))
    ensures r.Success? ==>
      var found := Rows.Find(old(db.tables.bookings), BookingKey, id);
      r.value == if found.None? then None else Some(Updated(found.value, data))
  {
    var built := PartialUpdate.Build(Columns, data, id);
    if built.Failure? {
      return Failure(built.error);
    }
    var cmd := built.value;
    PatchesAsUpdated(db.tables.bookings, db.next.booking, data, id, cmd);
    db.tables := db.tables.(bookings := Rows.Patch(db.tables.bookings, BookingKey, id, Run(cmd)));
    r := Success(Rows.Find(db.tables.bookings, BookingKey, id));
  }

  /** What the store does to a booking when it runs `cmd`. */
  function Run(cmd: PartialUpdate.Command): Booking -> Booking
    requires PartialUpdate.Runs(Columns, cmd.sets, cmd.values)
  {
    (b: Booking) => WithCells(b, PartialUpdate.Assign(Columns, cmd.sets, cmd.values, Cells(b)))
  }

  /** Running the built command on the table is the intended update of the
      booking with that id. */
  lemma PatchesAsUpdated(before: seq<Booking>, next: nat, data: Object, id: nat, cmd: PartialUpdate.Command)
    requires Rows.Keyed(before, BookingKey, next)
    requires PartialUpdate.Describes(cmd, PartialUpdate.Supplied(Columns, data), id)
    ensures PartialUpdate.Runs(Columns, cmd.sets, cmd.values)
    ensures Rows.Patch(before, BookingKey, id, Run(cmd)) == Rows.Patch(before, BookingKey, id, (b: Booking) => Updated(b, data))
    ensures Rows.Keyed(Rows.Patch(before, BookingKey, id, Run(cmd)), BookingKey, next)
    ensures Rows.Find(Rows.Patch(before, BookingKey, id, Run(cmd)), BookingKey, id)
      == if Rows.Find(before, BookingKey, id).None? then None else Some(Updated(Rows.Find(before, BookingKey, id).value, data))
  {
    RunsAsUpdated(data, id, cmd);
    Rows.PatchAs(before, BookingKey, next, id, Run(cmd), (b: Booking) => Updated(b, data));
  }

  /** The store runs the command `Build` made from `data` on any booking as
      the intended partial update of that booking. */
  lemma RunsAsUpdated(data: Object, id: nat, cmd: PartialUpdate.Command)
    requires PartialUpdate.Describes(cmd, PartialUpdate.Supplied(Columns, data), id)
    ensures PartialUpdate.Runs(Columns, cmd.sets, cmd.values)
    ensures forall b: Booking :: WithCells(b, PartialUpdate.Assign(Columns, cmd.sets, cmd.values, Cells(b))) == Updated(b, data)
  {
    assert PartialUpdate.Distinct(Columns);
    PartialUpdate.ExecuteBuilt(Columns, data, id, cmd, Cells(Booking(0, Null, Null, Null, Null, Null)));
    forall b: Booking
      ensures WithCells(b, PartialUpdate.Assign(Columns, cmd.sets, cmd.values, Cells(b))) == Updated(b, data)
    {
      PartialUpdate.ExecuteBuilt(Columns, data, id, cmd, Cells(b));
    }
  }

  /** `deleteBooking`: removes the booking with that id and returns it, or
      returns nothing and changes nothing. Its associations and payments stay. */
  method DeleteBooking(db: Store.Database, id: nat) returns (r: Option<Booking>)
    requires db.Valid()
    modifies db
    ensures db.Valid() && db.next == old(db.next)
    ensures r == Rows.Find(old(db.tables.bookings), BookingKey, id)
    ensures r.None? ==> db.tables == old(db.tables)
    ensures r.Some? ==> db.tables == old(db.tables).(bookings := db.tables.bookings)
    ensures r.Some? ==> multiset(db.tables.bookings) == multiset(old(db.tables.bookings)) - multiset{r.value}
  {
    r := Rows.Find(db.tables.bookings, BookingKey, id);
    Rows.DeleteFound(db.tables.bookings, BookingKey, db.next.booking, id);
    db.tables := db.tables.(bookings := Rows.Delete(db.tables.bookings, BookingKey, id));
  }
}
