/** The rows of the eight tables the services read and write. Every column
    other than `id` holds the value the service passed for it (see
    `Js.Stored`); `id` comes from the table's SERIAL sequence. */
module Schema {
  import opened Js
  import Rows

  datatype Hotel = Hotel(id: nat, name: JsVal, location: JsVal, rating: JsVal, pricePerNight: JsVal, description: JsVal)

  datatype RoomType = RoomType(id: nat, hotelId: JsVal, typeName: JsVal, description: JsVal, basePrice: JsVal)

  datatype Room = Room(id: nat, hotelId: JsVal, roomTypeId: JsVal, roomNumber: JsVal, floor: JsVal, status: JsVal)

  datatype Customer = Customer(id: nat, firstName: JsVal, lastName: JsVal, email: JsVal, phone: JsVal, address: JsVal)

  datatype Booking = Booking(id: nat, customerId: JsVal, checkInDate: JsVal, checkOutDate: JsVal, totalAmount: JsVal, status: JsVal)

  /** The association of a room with a booking; it has no id of its own. */
  datatype RoomBooking = RoomBooking(bookingId: JsVal, roomId: JsVal, price: JsVal)

  /** `paymentDate` is the store's clock when the row was inserted. */
  datatype Payment = Payment(id: nat, bookingId: JsVal, amount: JsVal, paymentMethod: JsVal, status: JsVal, paymentDate: JsVal)

  /** `createdAt` is the store's clock when the row was inserted. */
  datatype Review = Review(id: nat, roomId: JsVal, customerId: JsVal, rating: JsVal, comment: JsVal, createdAt: JsVal)

  function HotelKey(h: Hotel): nat { h.id }
  function RoomTypeKey(t: RoomType): nat { t.id }
  function RoomKey(r: Room): nat { r.id }
  function CustomerKey(c: Customer): nat { c.id }
  function BookingKey(b: Booking): nat { b.id }
  function PaymentKey(p: Payment): nat { p.id }
  function ReviewKey(r: Review): nat { r.id }

  /** The contents of the database, each table in insertion order. */
  datatype Tables = Tables(
    hotels: seq<Hotel>,
    roomTypes: seq<RoomType>,
    rooms: seq<Room>,
    customers: seq<Customer>,
    bookings: seq<Booking>,
    roomBookings: seq<RoomBooking>,
    payments: seq<Payment>,
    reviews: seq<Review>)

  /** The next value of each table's id sequence. */
  datatype Serials = Serials(hotel: nat, roomType: nat, room: nat, customer: nat, booking: nat, payment: nat, review: nat)
  {
    /** Sequences only move forward. */
    predicate AtMost(later: Serials)
    {
      && hotel <= later.hotel && roomType <= later.roomType && room <= later.room
      && customer <= later.customer && booking <= later.booking
      && payment <= later.payment && review <= later.review
    }
  }

  /** Every table's ids are unique, ascending in table order and below the
      next value of its sequence. */
  ghost predicate Keyed(t: Tables, next: Serials)
  {
    && Rows.Keyed(t.hotels, HotelKey, next.hotel)
    && Rows.Keyed(t.roomTypes, RoomTypeKey, next.roomType)
    && Rows.Keyed(t.rooms, RoomKey, next.room)
    && Rows.Keyed(t.customers, CustomerKey, next.customer)
    && Rows.Keyed(t.bookings, BookingKey, next.booking)
    && Rows.Keyed(t.payments, PaymentKey, next.payment)
    && Rows.Keyed(t.reviews, ReviewKey, next.review)
  }

  lemma KeyedLater(t: Tables, next: Serials, later: Serials)
    requires Keyed(t, next) && next.AtMost(later)
    ensures Keyed(t, later)
  {
  }
}
