/** The Postgres database behind the connection pool, as the services use it:
    its tables, its id sequences, `INSERT ... RETURNING *`, and the
    transaction state of a client checked out of the pool. */
module Store {
  import opened Js
  import opened Outcomes
  import opened Schema
  import Rows

  class Database {
    var tables: Tables
    var next: Serials

    ghost predicate Valid()
      reads this
    {
      Keyed(tables, next)
    }

    /** An empty database whose sequences start at 1. */
    constructor ()
      ensures Valid()
      ensures tables == Tables([], [], [], [], [], [], [], [])
      ensures next == Serials(1, 1, 1, 1, 1, 1, 1)
    {
      tables := Tables([], [], [], [], [], [], [], []);
      next := Serials(1, 1, 1, 1, 1, 1, 1);
    }

    method InsertHotel(name: JsVal, location: JsVal, rating: JsVal, pricePerNight: JsVal, description: JsVal) returns (h: Hotel)
      requires Valid()
      modifies this
      ensures Valid()
      ensures h == Hotel(old(next.hotel), Stored(name), Stored(location), Stored(rating), Stored(pricePerNight), Stored(description))
      ensures tables == old(tables).(hotels := old(tables.hotels) + [h])
      ensures next == old(next).(hotel := old(next.hotel) + 1)
    {
      h := Hotel(next.hotel, Stored(name), Stored(location), Stored(rating), Stored(pricePerNight), Stored(description));
      Rows.KeyedAppend(tables.hotels, HotelKey, next.hotel, h);
      tables := tables.(hotels := tables.hotels + [h]);
      next := next.(hotel := next.hotel + 1);
    }

    method InsertRoomType(hotelId: JsVal, typeName: JsVal, description: JsVal, basePrice: JsVal) returns (t: RoomType)
      requires Valid()
      modifies this
      ensures Valid()
      ensures t == RoomType(old(next.roomType), Stored(hotelId), Stored(typeName), Stored(description), Stored(basePrice))
      ensures tables == old(tables).(roomTypes := old(tables.roomTypes) + [t])
      ensures next == old(next).(roomType := old(next.roomType) + 1)
    {
      t := RoomType(next.roomType, Stored(hotelId), Stored(typeName), Stored(description), Stored(basePrice));
      Rows.KeyedAppend(tables.roomTypes, RoomTypeKey, next.roomType, t);
      tables := tables.(roomTypes := tables.roomTypes + [t]);
      next := next.(roomType := next.roomType + 1);
    }

    method InsertRoom(hotelId: JsVal, roomTypeId: JsVal, roomNumber: JsVal, floor: JsVal, status: JsVal) returns (r: Room)
      requires Valid()
      modifies this
      ensures Valid()
      ensures r == Room(old(next.room), Stored(hotelId), Stored(roomTypeId), Stored(roomNumber), Stored(floor), Stored(status))
      ensures tables == old(tables).(rooms := old(tables.rooms) + [r])
      ensures next == old(next).(room := old(next.room) + 1)
    {
      r := Room(next.room, Stored(hotelId), Stored(roomTypeId), Stored(roomNumber), Stored(floor), Stored(status));
      Rows.KeyedAppend(tables.rooms, RoomKey, next.room, r);
      tables := tables.(rooms := tables.rooms + [r]);
      next := next.(room := next.room + 1);
    }

    method InsertCustomer(firstName: JsVal, lastName: JsVal, email: JsVal, phone: JsVal, address: JsVal) returns (c: Customer)
      requires Valid()
      modifies this
      ensures Valid()
      ensures c == Customer(old(next.customer), Stored(firstName), Stored(lastName), Stored(email), Stored(phone), Stored(address))
      ensures tables == old(tables).(customers := old(tables.customers) + [c])
      ensures next == old(next).(customer := old(next.customer) + 1)
    {
      c := Customer(next.customer, Stored(firstName), Stored(lastName), Stored(email), Stored(phone), Stored(address));
      Rows.KeyedAppend(tables.customers, CustomerKey, next.customer, c);
      tables := tables.(customers := tables.customers + [c]);
      next := next.(customer := next.customer + 1);
    }

    /** Inserts a booking header, unless the store rejects the statement
        (`rejected`, standing for a foreign-key or other constraint violation
        decided by the store), in which case no table changes. Either way
        the id column's default has drawn the sequence's next value, so the
        sequence advances: a rejected row burns its id. */
    method InsertBooking(customerId: JsVal, checkInDate: JsVal, checkOutDate: JsVal, totalAmount: JsVal, status: JsVal, rejected: bool)
      returns (r: Result<Booking>)
      requires Valid()
      modifies this
      ensures Valid()
      ensures r.Failure? <==> rejected
      ensures next == old(next).(booking := old(next.booking) + 1)
      ensures r.Failure? ==> r.error == QueryFailed && tables == old(tables)
      ensures r.Success? ==>
        && r.value == Booking(old(next.booking), Stored(customerId), Stored(checkInDate), Stored(checkOutDate), Stored(totalAmount), Stored(status))
        && tables == old(tables).(bookings := old(tables.bookings) + [r.value])
    {
      if rejected {
        Rows.KeyedMonotone(tables.bookings, BookingKey, next.booking, next.booking + 1);
        next := next.(booking := next.booking + 1);
        return Failure(QueryFailed);
      }
      var b := Booking(next.booking, Stored(customerId), Stored(checkInDate), Stored(checkOutDate), Stored(totalAmount), Stored(status));
      Rows.KeyedAppend(tables.bookings, BookingKey, next.booking, b);
      tables := tables.(bookings := tables.bookings + [b]);
      next := next.(booking := next.booking + 1);
      r := Success(b);
    }

    /** Inserts an association row, unless the store rejects the statement. */
    method InsertRoomBooking(bookingId: JsVal, roomId: JsVal, price: JsVal, rejected: bool) returns (r: Result<RoomBooking>)
      requires Valid()
      modifies this
      ensures Valid() && next == old(next)
      ensures r.Failure? <==> rejected
      ensures r.Failure? ==> r.error == QueryFailed && tables == old(tables)
      ensures r.Success? ==>
        && r.value == RoomBooking(Stored(bookingId), Stored(roomId), Stored(price))
        && tables == old(tables).(roomBookings := old(tables.roomBookings) + [r.value])
    {
      if rejected {
        return Failure(QueryFailed);
      }
      var rb := RoomBooking(Stored(bookingId), Stored(roomId), Stored(price));
      tables := tables.(roomBookings := tables.roomBookings + [rb]);
      r := Success(rb);
    }

    /** `now` is the store's clock, the column default of `payment_date`. */
    method InsertPayment(bookingId: JsVal, amount: JsVal, paymentMethod: JsVal, status: JsVal, now: int) returns (p: Payment)
      requires Valid()
      modifies this
      ensures Valid()
      ensures p == Payment(old(next.payment), Stored(bookingId), Stored(amount), Stored(paymentMethod), Stored(status), Num(now))
      ensures tables == old(tables).(payments := old(tables.payments) + [p])
      ensures next == old(next).(payment := old(next.payment) + 1)
    {
      p := Payment(next.payment, Stored(bookingId), Stored(amount), Stored(paymentMethod), Stored(status), Num(now));
      Rows.KeyedAppend(tables.payments, PaymentKey, next.payment, p);
      tables := tables.(payments := tables.payments + [p]);
      next := next.(payment := next.payment + 1);
    }

    /** `now` is the store's clock, the column default of `created_at`. */
    method InsertReview(roomId: JsVal, customerId: JsVal, rating: JsVal, comment: JsVal, now: int) returns (r: Review)
      requires Valid()
      modifies this
      ensures Valid()
      ensures r == Review(old(next.review), Stored(roomId), Stored(customerId), Stored(rating), Stored(comment), Num(now))
      ensures tables == old(tables).(reviews := old(tables.reviews) + [r])
      ensures next == old(next).(review := old(next.review) + 1)
    {
      r := Review(next.review, Stored(roomId), Stored(customerId), Stored(rating), Stored(comment), Num(now));
      Rows.KeyedAppend(tables.reviews, ReviewKey, next.review, r);
      tables := tables.(reviews := tables.reviews + [r]);
      next := next.(review := next.review + 1);
    }
  }

  /** A connection checked out of the pool (`pool.connect()`): it can open a
      transaction, which remembers the tables as they were, and must be
      released back to the pool. Id sequences are not part of a transaction:
      a rollback restores the tables and leaves the sequences where they are. */
  class Client {
    const db: Database
    var snapshot: Option<Tables>  // Some(tables at BEGIN) while a transaction is open
    var released: bool

    ghost predicate Valid()
      reads this, db
    {
      db.Valid() && (snapshot.Some? ==> Keyed(snapshot.value, db.next))
    }

    constructor (db: Database)
      requires db.Valid()
      ensures Valid() && this.db == db
      ensures snapshot == None && !released
    {
      this.db := db;
      snapshot := None;
      released := false;
    }

    /** `BEGIN` */
    method Begin()
      requires Valid() && snapshot == None && !released
      modifies this
      ensures Valid() && snapshot == Some(db.tables) && !released
    {
      snapshot := Some(db.tables);
    }

    /** `COMMIT`: the changes since `BEGIN` stay. */
    method Commit()
      requires Valid() && snapshot.Some?
      modifies this
      ensures Valid() && snapshot == None && released == old(released)
    {
      snapshot := None;
    }

    /** `ROLLBACK`: the tables return to what they were at `BEGIN`. */
    method Rollback()
      requires Valid() && snapshot.Some?
      modifies this, db
      ensures Valid() && snapshot == None && released == old(released)
      ensures db.tables == old(snapshot.value) && db.next == old(db.next)
    {
      db.tables := snapshot.value;
      snapshot := None;
    }

    /** `client.release()` */
    method Release()
      requires !released
      modifies this
      ensures released && snapshot == old(snapshot)
    {
      released := true;
    }
  }
}
