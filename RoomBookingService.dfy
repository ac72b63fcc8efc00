/** services/roomBookingService.js, and the per-booking room lists that it
    and `getBookingById` aggregate with `json_agg`. */
module RoomBookingService {
  import opened Js
  import opened Outcomes
  import opened Schema
  import Store
  import Rows
  import Sorting

  /** The association row pairs that booking with that room. */
  predicate Pairs(bookingId: nat, roomId: nat, link: RoomBooking)
  {
    link.bookingId == Num(bookingId) && link.roomId == Num(roomId)
  }

  /** The association table after `DELETE ... WHERE booking_id = $1 AND
      room_id = $2`. */
  function Unlinked(s: seq<RoomBooking>, bookingId: nat, roomId: nat): (r: seq<RoomBooking>)
    ensures forall k :: 0 <= k < |r| ==> !Pairs(bookingId, roomId, r[k])
    ensures forall k :: 0 <= k < |s| && !Pairs(bookingId, roomId, s[k]) ==> s[k] in r
    ensures multiset(r) + multiset(Matching(s, bookingId, roomId)) == multiset(s)
    ensures |r| == |s| - |Matching(s, bookingId, roomId)|
  {
    Rows.FilterComplement(s, (x: RoomBooking) => Pairs(bookingId, roomId, x), (x: RoomBooking) => !Pairs(bookingId, roomId, x));
    Rows.Filter(s, (x: RoomBooking) => !Pairs(bookingId, roomId, x))
  }

  /** The association rows that pair that booking with that room. */
  function Matching(s: seq<RoomBooking>, bookingId: nat, roomId: nat): (r: seq<RoomBooking>)
    ensures forall k :: 0 <= k < |r| ==> Pairs(bookingId, roomId, r[k]) && r[k] in s
    ensures forall k :: 0 <= k < |s| && Pairs(bookingId, roomId, s[k]) ==> s[k] in r && multiset(r)[s[k]] == multiset(s)[s[k]]
  {
    var r := Rows.Filter(s, (x: RoomBooking) => Pairs(bookingId, roomId, x));
    assert forall k :: 0 <= k < |r| ==> r[k] in multiset(s);
    r
  }

  /** `assignRoomToBooking`: appends exactly one association row, with the
      price given or 0 when it is falsy, and returns it; the store may reject
      the insert (`rejected`), and then nothing changes. There is no check
      for a pair already assigned. */
  method AssignRoomToBooking(db: Store.Database, bookingId: nat, roomId: nat, price: JsVal, rejected: bool)
    returns (r: Result<RoomBooking>)
    requires db.Valid()
    modifies db
    ensures db.Valid() && db.next == old(db.next)
    ensures r.Failure? <==> rejected
    ensures r.Failure? ==> r.error == QueryFailed && db.tables == old(db.tables)
    ensures r.Success? ==>
      && r.value == RoomBooking(Num(bookingId), Num(roomId), if Falsy(price) then Num(0) else price)
      && db.tables == old(db.tables).(roomBookings := old(db.tables.roomBookings) + [r.value])
  {
    r := db.InsertRoomBooking(Num(bookingId), Num(roomId), Or(price, Num(0)), rejected);
  }

  /** Assigning the same pair twice leaves two more rows for it. */
  lemma AssignTwice(s: seq<RoomBooking>, link: RoomBooking, bookingId: nat, roomId: nat)
    requires Pairs(bookingId, roomId, link)
    ensures |Matching(s + [link] + [link], bookingId, roomId)| == |Matching(s, bookingId, roomId)| + 2
  {
    var p := (x: RoomBooking) => Pairs(bookingId, roomId, x);
    Rows.CountAppend(s, p, link);
    Rows.CountAppend(s + [link], p, link);
  }

  /** `removeRoomFromBooking`: deletes every association row for that pair
      and returns one of them, or returns nothing and changes nothing when
      there is none. Every other row stays, in its order. */
  method RemoveRoomFromBooking(db: Store.Database, bookingId: nat, roomId: nat) returns (r: Option<RoomBooking>)
    requires db.Valid()
    modifies db
    ensures db.Valid() && db.next == old(db.next)
    ensures db.tables == old(db.tables).(roomBookings := Unlinked(old(db.tables.roomBookings), bookingId, roomId))
    ensures r.None? <==> forall k :: 0 <= k < |old(db.tables.roomBookings)| ==> !Pairs(bookingId, roomId, old(db.tables.roomBookings)[k])
    ensures r.Some? ==> r.value in old(db.tables.roomBookings) && Pairs(bookingId, roomId, r.value)
    ensures r.None? ==> db.tables == old(db.tables)
  {
    var before := db.tables.roomBookings;
    var removed := Matching(before, bookingId, roomId);
    r := if removed == [] then None else Some(removed[0]);
    if removed == [] {
      Rows.FilterAll(before, (x: RoomBooking) => !Pairs(bookingId, roomId, x));
    }
    db.tables := db.tables.(roomBookings := Unlinked(before, bookingId, roomId));
  }

  /** Removing a pair a second time finds nothing and changes nothing. */
  lemma RemoveTwice(s: seq<RoomBooking>, bookingId: nat, roomId: nat)
    ensures Matching(Unlinked(s, bookingId, roomId), bookingId, roomId) == []
    ensures Unlinked(Unlinked(s, bookingId, roomId), bookingId, roomId) == Unlinked(s, bookingId, roomId)
  {
    Rows.FilterTwice(s, (x: RoomBooking) => !Pairs(bookingId, roomId, x));
  }

  /** A booking of one room with its customer, as `room_bookings JOIN
      bookings JOIN customers` pairs them; `room_price` is the association's
      price. The customer is reached through the booking. */
  datatype RoomStay = RoomStay(link: RoomBooking, booking: Option<Booking>, customer: Option<Customer>)
  {
    function RoomPrice(): JsVal { link.price }
  }

  ghost predicate StayJoined(t: Tables, v: RoomStay)
  {
    && Rows.Joins(t.bookings, BookingKey, v.link.bookingId, v.booking)
    && (v.booking.None? ==> v.customer.None?)
    && (v.booking.Some? ==> Rows.Joins(t.customers, CustomerKey, v.booking.value.customerId, v.customer))
  }

  function StayOf(t: Tables, link: RoomBooking): (v: RoomStay)
    ensures v.link == link && StayJoined(t, v)
  {
    var booking := Rows.Ref(t.bookings, BookingKey, link.bookingId);
    RoomStay(link, booking, if booking.Some? then Rows.Ref(t.customers, CustomerKey, booking.value.customerId) else None)
  }

  function Stays(t: Tables): (r: seq<RoomStay>)
    ensures |r| == |t.roomBookings|
    ensures forall k :: 0 <= k < |r| ==> r[k] == StayOf(t, t.roomBookings[k])
    ensures forall v :: v in r ==> v.link in t.roomBookings && StayJoined(t, v)
  {
    seq(|t.roomBookings|, k requires 0 <= k < |t.roomBookings| => StayOf(t, t.roomBookings[k]))
  }

  /** The sort key of `getBookingsByRoomId`: latest check-in first. */
  function StayCheckIn(v: RoomStay): JsVal
  {
    if v.booking.Some? then v.booking.value.checkInDate else Null
  }

  predicate OfRoom(roomId: nat, v: RoomStay)
  {
    v.link.roomId == Num(roomId) && v.booking.Some? && v.customer.Some?
  }

  /** `getBookingsByRoomId`: one row per association with that room whose
      booking and customer exist (inner joins), latest check-in first. */
  function GetBookingsByRoomId(t: Tables, roomId: nat): (r: seq<RoomStay>)
    requires Rows.Ascending(t.bookings, BookingKey)
    ensures Sorting.SortedBy(StayCheckIn, true, r)
    ensures |r| <= |t.roomBookings|
    ensures forall i :: 0 <= i < |r| ==> r[i].link in t.roomBookings && OfRoom(roomId, r[i]) && StayJoined(t, r[i])
    ensures forall k, m :: 0 <= k < |t.roomBookings| && 0 <= m < |t.bookings| ==>
      (t.roomBookings[k].roomId == Num(roomId) && t.roomBookings[k].bookingId == Num(t.bookings[m].id)
        && Rows.Refers(t.customers, CustomerKey, t.bookings[m].customerId)
      ==> StayOf(t, t.roomBookings[k]) in r
          && multiset(r)[StayOf(t, t.roomBookings[k])] == multiset(t.roomBookings)[t.roomBookings[k]])
  {
    ReachesStay(t, roomId);
    Sorting.OrderedWhere(Stays(t), (v: RoomStay) => OfRoom(roomId, v), StayCheckIn, true)
  }

  /** An association with the room whose booking exists and whose booking's
      customer exists passes the inner joins, so the query returns it, as
      often as the association table holds it: identical associations give
      identical rows. */
  lemma ReachesStay(t: Tables, roomId: nat)
    requires Rows.Ascending(t.bookings, BookingKey)
    ensures forall k, m :: 0 <= k < |t.roomBookings| && 0 <= m < |t.bookings| ==>
      (t.roomBookings[k].roomId == Num(roomId) && t.roomBookings[k].bookingId == Num(t.bookings[m].id)
        && Rows.Refers(t.customers, CustomerKey, t.bookings[m].customerId)
      ==> multiset(Sorting.OrderedWhere(Stays(t), (v: RoomStay) => OfRoom(roomId, v), StayCheckIn, true))[StayOf(t, t.roomBookings[k])]
          == multiset(t.roomBookings)[t.roomBookings[k]])
  {
    var all := Stays(t);
    var r := Sorting.OrderedWhere(all, (v: RoomStay) => OfRoom(roomId, v), StayCheckIn, true);
    Rows.CountsMapped(t.roomBookings, all, (x: RoomBooking) => StayOf(t, x), (v: RoomStay) => v.link);
    forall k, m | 0 <= k < |t.roomBookings| && 0 <= m < |t.bookings| && t.roomBookings[k].roomId == Num(roomId)
        && t.roomBookings[k].bookingId == Num(t.bookings[m].id) && Rows.Refers(t.customers, CustomerKey, t.bookings[m].customerId)
      ensures multiset(r)[StayOf(t, t.roomBookings[k])] == multiset(t.roomBookings)[t.roomBookings[k]]
    {
      Rows.FindAscending(t.bookings, BookingKey, m);
      Rows.RefersRef(t.customers, CustomerKey, t.bookings[m].customerId);
      assert all[k] == StayOf(t, t.roomBookings[k]);
    }
  }

  /** One element of a `rooms` list: `json_build_object` over the room the
      association refers to, its type and hotel, and the association's price.
      The room's columns are NULL when the room is missing. */
  datatype RoomEntry = RoomEntry(roomId: JsVal, roomNumber: JsVal, typeName: JsVal, hotelName: JsVal, price: JsVal)

  /** What `json_agg` collects for a row of the LEFT JOIN that matched no
      association: every column NULL. */
  const NullEntry := RoomEntry(Null, Null, Null, Null, Null)

  function EntryOf(t: Tables, link: RoomBooking): (e: RoomEntry)
    ensures e.price == link.price
    ensures Rows.Refers(t.rooms, RoomKey, link.roomId) <==> e.roomId != Null
    ensures e.roomId != Null ==> e.roomId == link.roomId
  {
    var room := Rows.Ref(t.rooms, RoomKey, link.roomId);
    Rows.RefersRef(t.rooms, RoomKey, link.roomId);
    if room.None? then
      RoomEntry(Null, Null, Null, Null, link.price)
    else
      var r := room.value;
      var rt := Rows.Ref(t.roomTypes, RoomTypeKey, r.roomTypeId);
      var h := Rows.Ref(t.hotels, HotelKey, r.hotelId);
      RoomEntry(Num(r.id), r.roomNumber, if rt.Some? then rt.value.typeName else Null, if h.Some? then h.value.name else Null, link.price)
  }

  predicate OfBooking(bookingId: nat, link: RoomBooking)
  {
    link.bookingId == Num(bookingId)
  }

  /** The associations of a booking, in table order, each as often as in
      the table. */
  function Links(t: Tables, bookingId: nat): (r: seq<RoomBooking>)
    ensures forall k :: 0 <= k < |r| ==> r[k] in t.roomBookings && OfBooking(bookingId, r[k])
    ensures forall k :: 0 <= k < |t.roomBookings| && OfBooking(bookingId, t.roomBookings[k]) ==>
      t.roomBookings[k] in r && multiset(r)[t.roomBookings[k]] == multiset(t.roomBookings)[t.roomBookings[k]]
  {
    var r := Rows.Filter(t.roomBookings, (x: RoomBooking) => OfBooking(bookingId, x));
    assert forall k :: 0 <= k < |r| ==> r[k] in multiset(t.roomBookings);
    r
  }

  function EntriesOf(t: Tables, links: seq<RoomBooking>): (r: seq<RoomEntry>)
    ensures |r| == |links|
    ensures forall k :: 0 <= k < |r| ==> r[k] == EntryOf(t, links[k])
  {
    seq(|links|, k requires 0 <= k < |links| => EntryOf(t, links[k]))
  }

  /** The `rooms` list of a booking as the queries compute it: `json_agg`
      over the booking's LEFT JOIN with its associations, which for a booking
      with no association is a single all-NULL entry. */
  function RoomsAsWritten(t: Tables, bookingId: nat): seq<RoomEntry>
  {
    var links := Links(t, bookingId);
    if links == [] then [NullEntry] else EntriesOf(t, links)
  }

  /** The `rooms` list of a booking: one entry per association of the booking. */
  function Rooms(t: Tables, bookingId: nat): (r: seq<RoomEntry>)
    ensures |r| == |Links(t, bookingId)|
    ensures forall k :: 0 <= k < |r| ==> r[k] == EntryOf(t, Links(t, bookingId)[k])
  {
    EntriesOf(t, Links(t, bookingId))
  }

  /** A booking with no association gets a one-element `rooms` list from the
      queries as written, an entry that names no room and carries no price. */
  lemma PhantomRoom(t: Tables, bookingId: nat)
    requires forall k :: 0 <= k < |t.roomBookings| ==> !OfBooking(bookingId, t.roomBookings[k])
    ensures |Links(t, bookingId)| == 0
    ensures RoomsAsWritten(t, bookingId) == [NullEntry]
  {
    Rows.FilterNone(t.roomBookings, (x: RoomBooking) => OfBooking(bookingId, x));
  }

  /** The `rooms` list has exactly as many entries as the booking has
      associations, each carrying its association's price, and agrees with
      the list as written whenever the booking has an association. */
  lemma RoomsMatchLinks(t: Tables, bookingId: nat)
    ensures |Rooms(t, bookingId)| == Rows.Count(t.roomBookings, (x: RoomBooking) => OfBooking(bookingId, x))
    ensures forall k :: 0 <= k < |Rooms(t, bookingId)| ==> Rooms(t, bookingId)[k].price == Links(t, bookingId)[k].price
    ensures Links(t, bookingId) != [] ==> RoomsAsWritten(t, bookingId) == Rooms(t, bookingId)
    ensures Links(t, bookingId) == [] ==> Rooms(t, bookingId) == []
  {
  }

  /** A booking of a customer with its rooms, one row per booking (`GROUP BY b.id`). */
  datatype CustomerBooking = CustomerBooking(booking: Booking, rooms: seq<RoomEntry>)

  function CustomerBookingCheckIn(v: CustomerBooking): JsVal
  {
    v.booking.checkInDate
  }

  predicate OfCustomer(customerId: nat, v: CustomerBooking)
  {
    v.booking.customerId == Num(customerId)
  }

  function WithRooms(t: Tables): (r: seq<CustomerBooking>)
    ensures |r| == |t.bookings|
    ensures forall k :: 0 <= k < |r| ==> r[k] == CustomerBooking(t.bookings[k], Rooms(t, t.bookings[k].id))
  {
    seq(|t.bookings|, k requires 0 <= k < |t.bookings| => CustomerBooking(t.bookings[k], Rooms(t, t.bookings[k].id)))
  }

  /** `getBookingsByCustomerId`: one row per booking of that customer, each
      with its rooms, latest check-in first. */
  function GetBookingsByCustomerId(t: Tables, customerId: nat): (r: seq<CustomerBooking>)
    ensures Sorting.SortedBy(CustomerBookingCheckIn, true, r)
    ensures |r| <= |t.bookings|
    ensures forall i :: 0 <= i < |r| ==>
      r[i].booking in t.bookings && r[i].booking.customerId == Num(customerId) && r[i].rooms == Rooms(t, r[i].booking.id)
    ensures forall k :: 0 <= k < |t.bookings| && t.bookings[k].customerId == Num(customerId) ==>
      CustomerBooking(t.bookings[k], Rooms(t, t.bookings[k].id)) in r
    ensures forall k :: 0 <= k < |t.bookings| && t.bookings[k].customerId == Num(customerId) ==>
      multiset(r)[CustomerBooking(t.bookings[k], Rooms(t, t.bookings[k].id))] == multiset(t.bookings)[t.bookings[k]]
  {
    ReachesCustomer(t, customerId);
    Sorting.OrderedWhere(WithRooms(t), (v: CustomerBooking) => OfCustomer(customerId, v), CustomerBookingCheckIn, true)
  }

  /** A booking of the customer is returned, with its rooms, as often as the
      bookings table holds it. */
  lemma ReachesCustomer(t: Tables, customerId: nat)
    ensures forall k :: 0 <= k < |t.bookings| && t.bookings[k].customerId == Num(customerId) ==>
      multiset(Sorting.OrderedWhere(WithRooms(t), (v: CustomerBooking) => OfCustomer(customerId, v), CustomerBookingCheckIn, true))
        [CustomerBooking(t.bookings[k], Rooms(t, t.bookings[k].id))] == multiset(t.bookings)[t.bookings[k]]
  {
    var all := WithRooms(t);
    var r := Sorting.OrderedWhere(all, (v: CustomerBooking) => OfCustomer(customerId, v), CustomerBookingCheckIn, true);
    Rows.CountsMapped(t.bookings, all, (x: Booking) => CustomerBooking(x, Rooms(t, x.id)), (v: CustomerBooking) => v.booking);
    forall k | 0 <= k < |t.bookings| && t.bookings[k].customerId == Num(customerId)
      ensures multiset(r)[CustomerBooking(t.bookings[k], Rooms(t, t.bookings[k].id))] == multiset(t.bookings)[t.bookings[k]]
    {
      assert all[k] == CustomerBooking(t.bookings[k], Rooms(t, t.bookings[k].id));
    }
  }

  /** With unique booking ids, each booking of the customer is one row. */
  lemma OnePerBooking(t: Tables, customerId: nat, k: nat)
    requires Rows.Ascending(t.bookings, BookingKey) && k < |t.bookings| && t.bookings[k].customerId == Num(customerId)
    ensures multiset(GetBookingsByCustomerId(t, customerId))[CustomerBooking(t.bookings[k], Rooms(t, t.bookings[k].id))] == 1
  {
    Rows.AscendingOnce(t.bookings, BookingKey, k);
  }
}
