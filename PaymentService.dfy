/** services/paymentService.js */
module PaymentService {
  import opened Js
  import opened Outcomes
  import opened Schema
  import Store
  import Rows

  /** A payment with its booking and the booking's customer, as `payments
      LEFT JOIN bookings LEFT JOIN customers` pairs them. The customer is
      reached through the booking, so it is missing whenever the booking is. */
  datatype PaymentView = PaymentView(payment: Payment, booking: Option<Booking>, customer: Option<Customer>)
  {
    function CheckInDate(): JsVal { if booking.Some? then booking.value.checkInDate else Null }
    function CheckOutDate(): JsVal { if booking.Some? then booking.value.checkOutDate else Null }
    function BookingAmount(): JsVal { if booking.Some? then booking.value.totalAmount else Null }
    function FirstName(): JsVal { if customer.Some? then customer.value.firstName else Null }
    function LastName(): JsVal { if customer.Some? then customer.value.lastName else Null }
    function Email(): JsVal { if customer.Some? then customer.value.email else Null }
    function Phone(): JsVal { if customer.Some? then customer.value.phone else Null }
    /** The payment's own columns under the aliases of `getBookingByPaymentId`. */
    function PaymentAmount(): JsVal { payment.amount }
    function PaymentMethod(): JsVal { payment.paymentMethod }
    function PaymentDate(): JsVal { payment.paymentDate }
  }

  /** The rows a payment's foreign key leads to. */
  ghost predicate Joined(t: Tables, v: PaymentView)
  {
    && Rows.Joins(t.bookings, BookingKey, v.payment.bookingId, v.booking)
    && (v.booking.None? ==> v.customer.None?)
    && (v.booking.Some? ==> Rows.Joins(t.customers, CustomerKey, v.booking.value.customerId, v.customer))
  }

  function ViewOf(t: Tables, p: Payment): (v: PaymentView)
    ensures v.payment == p && Joined(t, v)
  {
    var booking := Rows.Ref(t.bookings, BookingKey, p.bookingId);
    PaymentView(p, booking, if booking.Some? then Rows.Ref(t.customers, CustomerKey, booking.value.customerId) else None)
  }

  function Views(t: Tables): (r: seq<PaymentView>)
    ensures |r| == |t.payments|
    ensures forall k :: 0 <= k < |r| ==> r[k] == ViewOf(t, t.payments[k])
  {
    seq(|t.payments|, k requires 0 <= k < |t.payments| => ViewOf(t, t.payments[k]))
  }

  /** `getAllPayments`: one row per payment, by ascending id, with its
      booking and customer where they exist. */
  function GetAllPayments(t: Tables): (r: seq<PaymentView>)
    requires Rows.Ascending(t.payments, PaymentKey)
    ensures |r| == |t.payments|
    ensures forall i :: 0 <= i < |r| ==> r[i].payment == t.payments[i] && Joined(t, r[i])
    ensures forall i, j :: 0 <= i < j < |r| ==> r[i].payment.id < r[j].payment.id
  {
    Views(t)
  }

  /** `getPaymentById`: the payment with that id with its booking and
      customer where they exist, or nothing. */
  function GetPaymentById(t: Tables, id: nat): (r: Option<PaymentView>)
    ensures r.None? <==> forall k :: 0 <= k < |t.payments| ==> t.payments[k].id != id
    ensures r.Some? ==> r.value.payment in t.payments && r.value.payment.id == id && Joined(t, r.value)
  {
    var found := Rows.Find(t.payments, PaymentKey, id);
    if found.None? then None else Some(ViewOf(t, found.value))
  }

  /** The condition of `getPaymentByBookingId`: a payment of that booking
      whose booking and customer both exist (inner joins). */
  predicate OfBooking(bookingId: nat, v: PaymentView)
  {
    v.payment.bookingId == Num(bookingId) && v.booking.Some? && v.customer.Some?
  }

  /** `getPaymentByBookingId`: a payment of that booking whose booking and
      customer exist, or nothing when there is none. The store does not say
      which one when there are several; this is the first in table order. */
  function GetPaymentByBookingId(t: Tables, bookingId: nat): (r: Option<PaymentView>)
    requires Rows.Ascending(t.bookings, BookingKey)
    ensures r.Some? ==> r.value.payment in t.payments && OfBooking(bookingId, r.value) && Joined(t, r.value)
    ensures r.None? <==> forall k, m :: 0 <= k < |t.payments| && 0 <= m < |t.bookings| ==>
      !(t.payments[k].bookingId == Num(bookingId) && t.bookings[m].id == bookingId
        && Rows.Refers(t.customers, CustomerKey, t.bookings[m].customerId))
  {
    var all := Views(t);
    var matching := Rows.Filter(all, (v: PaymentView) => OfBooking(bookingId, v));
    forall k, m | 0 <= k < |t.payments| && 0 <= m < |t.bookings| && t.payments[k].bookingId == Num(bookingId)
        && t.bookings[m].id == bookingId && Rows.Refers(t.customers, CustomerKey, t.bookings[m].customerId)
      ensures matching != []
    {
      ReachesBooking(t, t.payments[k], m);
      assert all[k] in matching;
    }
    if matching == [] then
      None
    else
      assert matching[0] in multiset(all);
      ReachedBooking(t, matching[0]);
      Some(matching[0])
  }

  /** A payment of an existing booking whose customer exists reaches both. */
  lemma ReachesBooking(t: Tables, p: Payment, m: nat)
    requires Rows.Ascending(t.bookings, BookingKey) && m < |t.bookings| && p.bookingId == Num(t.bookings[m].id)
    requires Rows.Refers(t.customers, CustomerKey, t.bookings[m].customerId)
    ensures ViewOf(t, p).booking == Some(t.bookings[m]) && ViewOf(t, p).customer.Some?
  {
    Rows.FindAscending(t.bookings, BookingKey, m);
    Rows.RefersRef(t.customers, CustomerKey, t.bookings[m].customerId);
  }

  /** A joined payment names a booking of the table whose customer exists. */
  lemma ReachedBooking(t: Tables, v: PaymentView)
    requires Joined(t, v) && v.booking.Some? && v.customer.Some?
    ensures exists m :: (0 <= m < |t.bookings| && t.bookings[m] == v.booking.value
      && v.payment.bookingId == Num(t.bookings[m].id) && Rows.Refers(t.customers, CustomerKey, t.bookings[m].customerId))
  {
    var m :| 0 <= m < |t.bookings| && t.bookings[m] == v.booking.value;
    var c :| 0 <= c < |t.customers| && t.customers[c] == v.customer.value;
  }

  /** `getBookingByPaymentId`: the booking the payment with that id refers
      to, with its customer and the payment, or nothing when the payment,
      its booking or the booking's customer is missing. The row the query
      returns is the booking's columns (its id, status and total included),
      the customer's names, email and phone, and `PaymentAmount`,
      `PaymentMethod` and `PaymentDate`. */
  function GetBookingByPaymentId(t: Tables, paymentId: nat): (r: Option<PaymentView>)
    ensures r.Some? ==>
      && r.value.payment in t.payments && r.value.payment.id == paymentId
      && r.value.booking.Some? && r.value.customer.Some? && Joined(t, r.value)
    ensures r.None? <==>
      var p := GetPaymentById(t, paymentId); p.None? || p.value.booking.None? || p.value.customer.None?
  {
    var p := GetPaymentById(t, paymentId);
    if p.Some? && p.value.booking.Some? && p.value.customer.Some? then p else None
  }

  /** `createPayment`: the booking and the amount are stored as given; a
      falsy payment method becomes 'cash' and a falsy status 'completed';
      `now` is the store's clock. The route has already refused a falsy amount. */
  method CreatePayment(db: Store.Database, data: Object, now: int) returns (p: Payment)
    requires db.Valid()
    requires Truthy(Get(data, "amount"))
    modifies db
    ensures db.Valid()
    ensures p.id == old(db.next.payment) && p.paymentDate == Num(now)
    ensures p.bookingId == Stored(Get(data, "booking_id")) && p.amount == Get(data, "amount")
    ensures p.paymentMethod == (if Falsy(Get(data, "payment_method")) then Str("cash") else Get(data, "payment_method"))
    ensures p.status == (if Falsy(Get(data, "status")) then Str("completed") else Get(data, "status"))
    ensures db.tables == old(db.tables).(payments := old(db.tables.payments) + [p])
    ensures db.next == old(db.next).(payment := old(db.next.payment) + 1)
  {
    p := db.InsertPayment(Get(data, "booking_id"), Get(data, "amount"),
      Or(Get(data, "payment_method"), Str("cash")), Or(Get(data, "status"), Str("completed")), now);
  }
}
