# Hotel reservation data layer, in Dafny

A model of the service layer of a hotel-reservation API (`services/*.js`).
Eight singleton services read and write a Postgres database of hotels, room
types, rooms, customers, bookings, the booking–room association table
(`room_bookings`), payments and reviews. The model covers:

- **The store.** `Store.Database` is a class whose fields are the tables and
  the next value of each table's id sequence. Every `INSERT ... RETURNING *`
  is a method. Into a table with a SERIAL id it takes the next id, appends
  the row and advances the sequence. `room_bookings` has no id column, so its
  insert only appends. Its invariant `Valid` says that the ids of each table are
  ascending in table order and below the sequence's next value. So
  `ORDER BY id` is table order, and a lookup by id finds at most one row.
- **Transactions.** `Store.Client` is a connection checked out of the pool.
  `BEGIN` remembers the tables. `ROLLBACK` restores them but leaves the
  sequences where they are, as Postgres does. A booking header that the
  store rejects has already drawn its id, so that id is never used.
  `release()` sets a flag.
- **JavaScript values.** `Js.JsVal` covers `undefined`, `null`, booleans,
  integers, strings and arrays. `Falsy`/`Or` model `x || default`, which the
  create paths use. The update paths test `x !== undefined` instead.
  `Stored` is what node-postgres sends for a parameter: `undefined` becomes
  NULL.
- **The partial-update builder.** Six services copy the same code. It is
  modelled once, in `PartialUpdate`:
  - `Build` is the loop that collects `column = $n` fragments and values and
    refuses an empty update.
  - `Assign` is what the store does with the command.
  - `Merge` is the intended result.
  - `ExecuteBuilt` proves that running the built command is exactly the
    merge.

  Each service instantiates it with its allow-list of columns.
- **`createBooking`.** It runs BEGIN, the header insert, one association
  insert per element of `room_ids`, then COMMIT. On a failure it runs
  ROLLBACK and returns the error, and the client is released on every path.
  Whether the store rejects an insert (a foreign-key violation, say) is an
  input: the set `rejected`.
- **The read queries.** They are functions over the tables.
  - A `LEFT JOIN` on a foreign key pairs a row with the referenced row, or
    with none (`Rows.Joins`). Joined columns of a missing row read as NULL.
  - An inner join keeps only rows whose referenced rows exist.
  - `ORDER BY` is specified as "sorted by the key, and a permutation of the
    selected rows" (`Sorting`). So each selected row appears exactly as
    often as in its table. NULL sorts last when ascending, as in Postgres.
  - `COUNT` is the length of a selection.
- **Route checks.** The routes test that fields are truthy before calling a
  create method. These tests are preconditions of the create methods.

Each view datatype (`RoomView`, `ReviewView`, `PaymentView`, …) carries the
left row and the joined rows. Its accessor functions give the selected
joined columns, NULL when the joined row is missing.

## Model

| member | source | states |
|---|---|---|
| PartialUpdate.Build | services/bookingService.js:74-105 | Fails with `NoFieldsToUpdate` exactly when every allow-listed field is `undefined`. Otherwise the i-th fragment assigns the i-th supplied column, in allow-list order, from placeholder i+1. The values are the supplied values followed by the id, and WHERE uses placeholder k+1. |
| PartialUpdate.ExecuteBuilt | services/bookingService.js:104-107 | Running the built command on a row writes every supplied column (an explicit null as NULL) and leaves every other column as it was. |
| PartialUpdate.SuppliedFromData | services/bookingService.js:79-98 | Each fragment carries an allow-listed column and that column's defined value from the body. With an allow-list that names each column once, as all six do, no column is assigned twice. |
| PartialUpdate.SuppliedIgnoresUnlisted | services/bookingService.js:75 | A key outside the allow-list never changes the update. |
| Outcomes.Error.Message | services/bookingService.js:100-102 | Only the no-fields error carries the text 'No fields to update', which the routes match on. |
| Js.OrReplacesFalsy | services/hotelService.js:19 | `a \|\| d` gives `d` exactly when `a` is falsy (or already `d`). It replaces 0, "", false and null, which `!== undefined` lets through. |
| Js.Stored | services/hotelService.js:17-20 | A column never holds `undefined`. A parameter is stored as NULL exactly when it is `null` or `undefined`; any other value is stored unchanged. |
| Store.Database.InsertBooking | services/bookingService.js:47-50 | The booking sequence advances by one whether or not the insert is rejected. On success the header gets the drawn id and is appended. A rejected insert fails and leaves every table as it was. |
| Store.Database.InsertRoomBooking | services/bookingService.js:57-60 | Appends one association row. A rejected insert fails and changes nothing. |
| Store.Client.Begin | services/bookingService.js:44 | Opens a transaction that remembers the current tables. |
| Store.Client.Commit | services/bookingService.js:64 | Closes the transaction and keeps the changes. |
| Store.Client.Rollback | services/bookingService.js:67 | Restores the tables remembered at BEGIN. The sequences are not rolled back. |
| Store.Client.Release | services/bookingService.js:69-71 | The client is back in the pool. |
| Rows.DeleteFound | services/hotelService.js:68-71 | `DELETE ... WHERE id` on a keyed table removes exactly the row a lookup finds, or nothing. The table stays keyed. |
| Rows.PatchAs | services/hotelService.js:60-65 | `UPDATE ... WHERE id` changes only the row with that id. It keeps the table keyed, and the row then found is the updated one. |
| Rows.JoinsUnique | services/roomService.js:8-9 | With unique ids, the row a LEFT JOIN pairs with a foreign key is determined. |
| Sorting.SortBy | services/reviewService.js:13 | The result is ordered by the key and is a permutation of the input. |
| Sorting.OrderedWhere | services/reviewService.js:37-40 | `WHERE p ORDER BY key`: sorted. Every row returned meets `p`, and every input row meeting `p` appears exactly as often as in the input. |
| HotelService.GetAllHotels | services/hotelService.js:4-7 | Every hotel, each once, by ascending id. |
| HotelService.GetHotelById | services/hotelService.js:9-12 | The hotel with that id, or nothing exactly when there is none. |
| HotelService.CreateHotel | services/hotelService.js:14-23 | Name and location are stored as given. A falsy rating, price or description is stored as NULL. The row gets the next id and is appended; nothing else changes. |
| HotelService.ZeroRating | services/hotelService.js:14-45 | A rating of 0 becomes NULL on create but is written as 0 on update. An explicit null is written as NULL on update. |
| HotelService.UpdateHotel | services/hotelService.js:25-66 | No supplied field: the no-fields error and no change. Otherwise only the row with that id changes, to the merge of the supplied fields. The updated row is returned, or nothing when the id is absent. |
| HotelService.RunsAsUpdated | services/hotelService.js:31-62 | The store runs the built command on any hotel as the intended partial update. |
| HotelService.DeleteHotel | services/hotelService.js:68-71 | Returns the row with that id and removes it, and only it. With no such row it returns nothing and changes nothing. |
| CustomerService.GetAllCustomers | services/customerService.js:4-7 | Every customer, each once, by ascending id. |
| CustomerService.GetCustomerById | services/customerService.js:9-12 | The customer with that id, or nothing exactly when there is none. |
| CustomerService.CreateCustomer | services/customerService.js:14-21 | Names and email are stored as given. A falsy phone or address is stored as NULL. |
| CustomerService.UpdateCustomer | services/customerService.js:23-57 | As `UpdateHotel`, over first_name, last_name, email, phone, address. |
| CustomerService.RunsAsUpdated | services/customerService.js:28-55 | The built command runs as the intended partial update of any customer. |
| CustomerService.DeleteCustomer | services/customerService.js:59-62 | Removes and returns the row with that id, or returns nothing and changes nothing. |
| RoomService.ViewOf | services/roomService.js:15-25 | A room is paired with the room type and the hotel its foreign keys name, or with none when no such row exists. |
| RoomService.GetAllRooms | services/roomService.js:4-13 | One row per room, by ascending id, each LEFT JOINed to its type and hotel. |
| RoomService.GetRoomById | services/roomService.js:15-25 | The room with that id with its type and hotel where they exist (their columns NULL otherwise), or nothing. |
| RoomService.CreateRoom | services/roomService.js:27-34 | Hotel and room number are stored as given. A falsy room type or floor is stored as NULL, and a falsy status as 'available'. |
| RoomService.GroundFloor | services/roomService.js:27-59 | Floor 0 and an empty status are defaulted on create but written as sent on update. |
| RoomService.UpdateRoom | services/roomService.js:36-70 | As `UpdateHotel`, over hotel_id, room_type_id, room_number, floor, status. |
| RoomService.RunsAsUpdated | services/roomService.js:41-68 | The built command runs as the intended partial update of any room. |
| RoomService.DeleteRoom | services/roomService.js:72-75 | Removes and returns the row with that id, or returns nothing and changes nothing. |
| RoomTypeService.ViewOf | services/roomTypeService.js:4-12 | A room type is paired with its hotel, or with none when the hotel is missing. |
| RoomTypeService.GetAllRoomTypes | services/roomTypeService.js:4-12 | One row per room type, by ascending id; `hotel_name` is NULL when the hotel is missing. |
| RoomTypeService.GetRoomTypeById | services/roomTypeService.js:14-22 | The room type with that id with its hotel where it exists, or nothing. |
| RoomTypeService.GetRoomsByRoomType | services/roomTypeService.js:24-34 | Ordered by room number. Each row is a room of that type whose type and hotel exist. Every room of that type with an existing type and hotel appears exactly once. |
| RoomTypeService.ReachesType | services/roomTypeService.js:27-30 | A room of that type whose type and hotel exist is returned exactly once. |
| RoomTypeService.CreateRoomType | services/roomTypeService.js:36-43 | Hotel and type name are stored as given. A falsy description or base price is stored as NULL. |
| RoomTypeService.UpdateRoomType | services/roomTypeService.js:45-75 | As `UpdateHotel`, over hotel_id, type_name, description, base_price. |
| RoomTypeService.RunsAsUpdated | services/roomTypeService.js:50-73 | The built command runs as the intended partial update of any room type. |
| RoomTypeService.DeleteRoomType | services/roomTypeService.js:77-80 | Removes and returns the row with that id, or returns nothing and changes nothing. |
| ReviewService.ViewOf | services/reviewService.js:18-31 | A review is paired with its room, the room's type and hotel, and its author. Each is missing when no row has the id; type and hotel are missing whenever the room is. |
| ReviewService.GetAllReviews | services/reviewService.js:4-16 | Newest first. Every review appears exactly as often as in the table, with its room, the room's type and its author where they exist. |
| ReviewService.GetReviewById | services/reviewService.js:18-31 | The review with that id with its joins, or nothing. |
| ReviewService.GetReviewsByRoomId | services/reviewService.js:33-42 | Newest first. Each row is a review of that room whose author exists. Each such review appears exactly as often as in the reviews table. |
| ReviewService.ReachesRoomReviews | services/reviewService.js:33-42 | A review of that room whose author exists is returned as often as the reviews table holds it. |
| ReviewService.GetReviewsByCustomerId | services/reviewService.js:44-55 | Newest first. Each row is a review by that customer whose room, room type and hotel exist. Each such review appears exactly as often as in the reviews table. |
| ReviewService.ReachesRoom | services/reviewService.js:47-49 | A review of an existing room whose type and hotel exist is joined to all three. |
| ReviewService.ReachesReviews | services/reviewService.js:44-55 | A review by that customer whose room, room type and hotel exist is returned as often as the reviews table holds it. |
| ReviewService.CreateReview | services/reviewService.js:57-64 | Room, author and rating are stored as given, and a falsy comment as NULL. `created_at` is the store's clock. |
| ReviewService.UpdateReview | services/reviewService.js:66-88 | Only rating and comment can change. Neither supplied: the no-fields error and no change. Otherwise only that review changes, and its room, author and date stay. |
| ReviewService.RunsAsUpdated | services/reviewService.js:71-86 | The built command runs as the intended partial update of any review. |
| ReviewService.UpdateIgnoresOwnership | services/reviewService.js:66-67 | A `room_id` or `customer_id` in the body does not change the update. |
| ReviewService.WherePlaceholder | services/reviewService.js:84-87 | A successful review update uses WHERE placeholder 2 or 3. |
| ReviewService.DeleteReview | services/reviewService.js:90-93 | Removes and returns the row with that id, or returns nothing and changes nothing. |
| PaymentService.ViewOf | services/paymentService.js:4-14 | A payment is paired with its booking and the booking's customer. The customer is missing whenever the booking is. |
| PaymentService.GetAllPayments | services/paymentService.js:4-14 | One row per payment, by ascending id, with booking and customer where they exist. |
| PaymentService.GetPaymentById | services/paymentService.js:16-26 | The payment with that id with its joins, or nothing. |
| PaymentService.GetPaymentByBookingId | services/paymentService.js:37-47 | Some payment of that booking whose booking and customer exist. Nothing exactly when no such payment exists. |
| PaymentService.ReachesBooking | services/paymentService.js:42-43 | A payment of an existing booking whose customer exists is joined to both. |
| PaymentService.GetBookingByPaymentId | services/paymentService.js:49-59 | The payment with that id together with its booking and the booking's customer, which give the booking's columns, the customer's names, email and phone, and the payment's amount, method and date. Nothing exactly when the payment, its booking or the booking's customer is missing. |
| PaymentService.CreatePayment | services/paymentService.js:28-35 | Booking and amount are stored as given. A falsy method becomes 'cash' and a falsy status 'completed'. `payment_date` is the store's clock. |
| RoomBookingService.AssignRoomToBooking | services/roomBookingService.js:4-10 | Appends exactly one row (booking, room, price, or 0 when price is falsy) and returns it. A rejected insert changes nothing. |
| RoomBookingService.AssignTwice | services/roomBookingService.js:5-8 | No duplicate check: assigning a pair twice adds two rows for it. |
| RoomBookingService.Unlinked | services/roomBookingService.js:12-18 | The table without every row of that pair. Each other row stays, and the rows removed and kept together are the old table. |
| RoomBookingService.Matching | services/roomBookingService.js:14-17 | The rows that pair that booking with that room, each as often as in the table. |
| RoomBookingService.RemoveRoomFromBooking | services/roomBookingService.js:12-18 | Deletes every row of the pair and returns one of them. With no such row it returns nothing and changes nothing. |
| RoomBookingService.RemoveTwice | services/roomBookingService.js:12-18 | A second identical removal finds nothing and changes nothing. |
| RoomBookingService.StayOf | services/roomBookingService.js:20-31 | An association is paired with its booking and the booking's customer. |
| RoomBookingService.GetBookingsByRoomId | services/roomBookingService.js:20-31 | Latest check-in first. Each row is an association with that room whose booking and customer exist. Each such association appears as often as in the table, so duplicate associations give duplicate rows. |
| RoomBookingService.ReachesStay | services/roomBookingService.js:24-27 | An association with that room whose booking and booking's customer exist is returned as often as the table holds it. |
| RoomBookingService.EntryOf | services/roomBookingService.js:36-42 | An entry carries its association's price. The room columns are NULL exactly when the room is missing. |
| RoomBookingService.Links | services/roomBookingService.js:44 | Exactly the associations of that booking, each as often as in the table. |
| RoomBookingService.Rooms | services/roomBookingService.js:36-46 | One entry per association of the booking, carrying the room's number, type name and hotel name. |
| RoomBookingService.PhantomRoom | services/roomBookingService.js:36-46 | As written, a booking with no association gets a one-entry, all-NULL `rooms` list. |
| RoomBookingService.RoomsMatchLinks | services/roomBookingService.js:36-46 | The corrected list has as many entries as associations, each with its association's price. It is empty for a booking with none, and it agrees with the list as written otherwise. |
| RoomBookingService.GetBookingsByCustomerId | services/roomBookingService.js:33-53 | Latest check-in first. Each row is a booking of that customer with its rooms. Each such booking appears as often as in the bookings table. |
| RoomBookingService.ReachesCustomer | services/roomBookingService.js:33-53 | A booking of that customer is returned, with its rooms, as often as the bookings table holds it. |
| RoomBookingService.OnePerBooking | services/roomBookingService.js:48-49 | With unique booking ids, each booking of that customer is exactly one row. |
| BookingService.GetAllBookings | services/bookingService.js:4-16 | One row per booking, by ascending id, with its customer where it exists. Its room count is the number of its associations with a room. |
| BookingService.NoLinksNoRooms | services/bookingService.js:8-11 | A booking with no association has room count 0. |
| BookingService.AssignCountsRoom | services/bookingService.js:8 | Assigning a room to a booking adds one to its room count and to no other booking's. |
| BookingService.GetBookingById | services/bookingService.js:18-37 | The booking with that id, or nothing. Its customer is paired where it exists, and gives first name, last name, email and phone. There is one room entry per association, with room id, number, type name and price but no hotel name. |
| BookingService.PhantomBookedRoom | services/bookingService.js:20-32 | As written, a booking with no association gets a one-entry `rooms` list whose four columns are NULL. The corrected list is empty. |
| BookingService.NewLinks | services/bookingService.js:55-62 | One association per element of `room_ids`, in order and with repeats, each with the new booking's id and price 0. |
| BookingService.InsertLinks | services/bookingService.js:55-62 | Inserts the associations in order. It fails exactly when one of them is rejected, and otherwise appends exactly `NewLinks`. |
| BookingService.InsertAll | services/bookingService.js:47-61 | Fails exactly when the header or one association is rejected. On success it appends the header (total 0 and status 'pending' when falsy) and exactly the new associations. The booking sequence moves on by one either way, so the tables at BEGIN stay keyed. |
| BookingService.CreateBooking | services/bookingService.js:39-72 | Fails exactly when an insert is rejected, and then no table has changed. On success it appends the header (total 0 and status 'pending' when falsy) and one association per requested room, and returns the header. Either way the booking sequence has moved on by one. The client ends released with no open transaction. |
| BookingService.CreatedRoomCount | services/bookingService.js:55-62 | A new booking's room count is the number of (non-null) rooms it was created with. |
| BookingService.UpdateBooking | services/bookingService.js:74-108 | As `UpdateHotel`, over customer_id, check_in_date, check_out_date, total_amount, status. |
| BookingService.RunsAsUpdated | services/bookingService.js:79-106 | The built command runs as the intended partial update of any booking. |
| BookingService.DeleteBooking | services/bookingService.js:110-113 | Removes and returns the row with that id, or returns nothing and changes nothing. Associations and payments stay. |

## Left out

- Connections, `async`/`await` and the pool are left out; one client at a time is modelled, with no concurrency.
- The SQL text is not modelled. A command is its SET fragments, its parameter list and its WHERE placeholder.
- Type coercion by the store is not modelled. A value is stored as the JSON value sent. Ids taken from URL parameters are naturals, and an id a join compares is a `Num`.
- Foreign keys, constraints and cascades are not defined by these services, so none are modelled. Only the inserts of `createBooking` and `assignRoomToBooking` can be rejected, through an explicit input. A rejected update or delete is not modelled.
- Ties in `ORDER BY` are left open by the store. The model picks one order (that of an insertion sort), and the contracts state only sortedness and how often each row appears. The element order inside `json_agg` is open too; the model uses table order.
- Collations are not modelled. Strings sort by code point, and values of different kinds never share a column.
- The column projection of each query (which joined columns the JSON carries, and under which alias) is not modelled as its own record. `SELECT *` on a row is its datatype, and the joined columns are read through the view accessors. The `rooms` lists are the exception: each has its own entry datatype. Queries that share a view type select different subsets of its accessors, so for the members below the view exposes more than the query returns.
- ReviewService.GetAllReviews: the query has no hotels join and selects room number, type name and the author's names and email. The view shared with `getReviewById` also carries the room's hotel (`HotelName`).
- ReviewService.GetReviewsByRoomId: the query selects only the author's first name, last name and email. The view also exposes `RoomNumber`, `TypeName` and `HotelName`.
- ReviewService.GetReviewsByCustomerId: the query selects room number, type name and hotel name, and no author column. The view also exposes `FirstName`, `LastName` and `Email`.
- RoomService.GetAllRooms: the query selects type name, base price and hotel name. `TypeDescription` and `Location` belong to `getRoomById` only.
- RoomTypeService.GetRoomsByRoomType: the query selects only type name and hotel name from the joins. The room view also exposes `BasePrice`, `TypeDescription` and `Location`.
- PaymentService.GetAllPayments: the query selects no customer phone, though the view exposes `Phone`. The same holds for PaymentService.GetPaymentByBookingId.
- PaymentService.GetBookingByPaymentId: the row the query returns is the booking's own columns (`b.*`, so `id`, `status` and `total_amount` are the booking's), the customer's names, email and phone, and the payment's `PaymentAmount`, `PaymentMethod` and `PaymentDate`. The model returns the payment's whole view, from which those columns are read. No other payment column is selected.
- Hotels' `created_at` column and other column defaults not named by the services are not modelled. The clock behind `payment_date` and `created_at` is a parameter `now`.
- The Express routes, HTTP status codes, `setup.js`, `index.js`, and the invoice generators `main.py` and `app.py` are not part of this model. The route checks appear only as preconditions of the create methods.
- RoomBookingService.RemoveRoomFromBooking: returns the first removed row in table order; the store only promises one of them, and the contract states only that.
- PaymentService.GetPaymentByBookingId: returns the first matching payment in table order; the store does not say which, and the contract states only that it is one of them.
- BookingService.GetBookingById: uses the corrected `rooms` list (see Findings), not the one the query computes for a booking without rooms.
- RoomBookingService.GetBookingsByCustomerId: uses the corrected `rooms` list too.

## Findings

| source | as written | input that shows it | evidently intended | confidence | as-written member | corrected member |
|---|---|---|---|---|---|---|
| services/roomBookingService.js:36-46 | `json_agg(json_build_object(...))` over a LEFT JOIN of a booking with its associations | a booking with no row in `room_bookings`: its `rooms` is `[{room_id: null, room_number: null, type_name: null, hotel_name: null, price: null}]` | an empty `rooms` list; one entry per assigned room | medium, not executed | RoomBookingService.PhantomRoom | RoomBookingService.RoomsMatchLinks |
| services/bookingService.js:22-33 | the same aggregation in `getBookingById` | a booking with no assigned room: its `rooms` is `[{room_id: null, room_number: null, type_name: null, price: null}]` | an empty `rooms` list | medium, not executed | BookingService.PhantomBookedRoom | BookingService.GetBookingById |
