/** services/reviewService.js */
module ReviewService {
  import opened Js
  import opened Outcomes
  import opened Schema
  import Store
  import Rows
  import Sorting
  import PartialUpdate

  /** The columns `updateReview` accepts, in the order it tests them: a
      review's room and author never change. */
  const Columns: seq<string> := ["rating", "comment"]

  /** A review's updatable cells, in `Columns` order. */
  function Cells(r: Review): (cells: seq<JsVal>)
    ensures |cells| == |Columns|
  {
    [r.rating, r.comment]
  }

  function WithCells(r: Review, cells: seq<JsVal>): (r': Review)
    requires |cells| == |Columns|
    ensures r'.id == r.id && r'.roomId == r.roomId && r'.customerId == r.customerId && r'.createdAt == r.createdAt
    ensures Cells(r') == cells
  {
    r.(rating := cells[0], comment := cells[1])
  }

  /** A review after a partial update with `data`. */
  function Updated(r: Review, data: Object): Review
  {
    WithCells(r, PartialUpdate.Merge(Columns, data, Cells(r)))
  }

  /** A review with its room, the room's type and hotel, and its author, as
      the LEFT JOINs of `getAllReviews` and `getReviewById` pair them. The
      type and hotel are reached through the room, so they are missing
      whenever the room is. */
  datatype ReviewView = ReviewView(review: Review, room: Option<Room>, roomType: Option<RoomType>, hotel: Option<Hotel>, customer: Option<Customer>)
  {
    function RoomNumber(): JsVal { if room.Some? then room.value.roomNumber else Null }
    function TypeName(): JsVal { if roomType.Some? then roomType.value.typeName else Null }
    function HotelName(): JsVal { if hotel.Some? then hotel.value.name else Null }
    function FirstName(): JsVal { if customer.Some? then customer.value.firstName else Null }
    function LastName(): JsVal { if customer.Some? then customer.value.lastName else Null }
    function Email(): JsVal { if customer.Some? then customer.value.email else Null }
  }

  /** The rows a review's foreign keys lead to. */
  ghost predicate Joined(t: Tables, v: ReviewView)
  {
    && Rows.Joins(t.rooms, RoomKey, v.review.roomId, v.room)
    && Rows.Joins(t.customers, CustomerKey, v.review.customerId, v.customer)
    && (v.room.None? ==> v.roomType.None? && v.hotel.None?)
    && (v.room.Some? ==>
         Rows.Joins(t.roomTypes, RoomTypeKey, v.room.value.roomTypeId, v.roomType)
         && Rows.Joins(t.hotels, HotelKey, v.room.value.hotelId, v.hotel))
  }

  function ViewOf(t: Tables, r: Review): (v: ReviewView)
    ensures v.review == r && Joined(t, v)
  {
    var room := Rows.Ref(t.rooms, RoomKey, r.roomId);
    ReviewView(r, room,
      if room.Some? then Rows.Ref(t.roomTypes, RoomTypeKey, room.value.roomTypeId) else None,
      if room.Some? then Rows.Ref(t.hotels, HotelKey, room.value.hotelId) else None,
      Rows.Ref(t.customers, CustomerKey, r.customerId))
  }

  function Views(t: Tables): (r: seq<ReviewView>)
    ensures |r| == |t.reviews|
    ensures forall k :: 0 <= k < |r| ==> r[k] == ViewOf(t, t.reviews[k])
  {
    seq(|t.reviews|, k requires 0 <= k < |t.reviews| => ViewOf(t, t.reviews[k]))
  }

  /** The sort key of the review lists: newest first. */
  function CreatedAt(v: ReviewView): JsVal
  {
    v.review.createdAt
  }

  /** `getAllReviews`: one row per review, each as often as in the table,
      newest first, each with whatever its foreign keys lead to. */
  function GetAllReviews(t: Tables): (r: seq<ReviewView>)
    ensures Sorting.SortedBy(CreatedAt, true, r)
    ensures |r| == |t.reviews|
    ensures forall i :: 0 <= i < |r| ==> r[i].review in t.reviews && Joined(t, r[i])
    ensures forall k :: 0 <= k < |t.reviews| ==> ViewOf(t, t.reviews[k]) in r
    ensures forall k :: 0 <= k < |t.reviews| ==> multiset(r)[ViewOf(t, t.reviews[k])] == multiset(t.reviews)[t.reviews[k]]
  {
    var r := Sorting.SortBy(CreatedAt, true, Views(t));
    ViewsCounted(t);
    forall i | 0 <= i < |r| ensures r[i].review in t.reviews && Joined(t, r[i]) {
      assert r[i] in multiset(Views(t));
      var k :| 0 <= k < |t.reviews| && Views(t)[k] == r[i];
    }
    forall k | 0 <= k < |t.reviews| ensures ViewOf(t, t.reviews[k]) in r {
      assert Views(t)[k] in multiset(r);
    }
    r
  }

  /** One view per review holds each review's view as often as the table
      holds the review. */
  lemma ViewsCounted(t: Tables)
    ensures forall k :: 0 <= k < |t.reviews| ==> multiset(Views(t))[ViewOf(t, t.reviews[k])] == multiset(t.reviews)[t.reviews[k]]
  {
    Rows.CountsMapped(t.reviews, Views(t), (x: Review) => ViewOf(t, x), (v: ReviewView) => v.review);
  }

  /** `getReviewById`: the review with that id with its room, type, hotel and
      author where they exist, or nothing. */
  function GetReviewById(t: Tables, id: nat): (r: Option<ReviewView>)
    ensures r.None? <==> forall k :: 0 <= k < |t.reviews| ==> t.reviews[k].id != id
    ensures r.Some? ==> r.value.review in t.reviews && r.value.review.id == id && Joined(t, r.value)
  {
    var found := Rows.Find(t.reviews, ReviewKey, id);
    if found.None? then None else Some(ViewOf(t, found.value))
  }

  /** `getReviewsByRoomId`: the reviews of that room whose author exists
      (an inner join), newest first. */
  function GetReviewsByRoomId(t: Tables, roomId: nat): (r: seq<ReviewView>)
    ensures Sorting.SortedBy(CreatedAt, true, r)
    ensures |r| <= |t.reviews|
    ensures forall i :: 0 <= i < |r| ==>
      r[i].review in t.reviews && r[i].review.roomId == Num(roomId) && r[i].customer.Some? && Joined(t, r[i])
    ensures forall k :: 0 <= k < |t.reviews| ==>
      (t.reviews[k].roomId == Num(roomId) && Rows.Refers(t.customers, CustomerKey, t.reviews[k].customerId)
      ==> ViewOf(t, t.reviews[k]) in r && multiset(r)[ViewOf(t, t.reviews[k])] == multiset(t.reviews)[t.reviews[k]])
  {
    ReachesRoomReviews(t, roomId);
    Sorting.OrderedWhere(Views(t), (v: ReviewView) => OfRoom(roomId, v), CreatedAt, true)
  }

  /** The condition of `getReviewsByRoomId`: a review of that room, with the
      author its inner join requires. */
  predicate OfRoom(roomId: nat, v: ReviewView)
  {
    v.review.roomId == Num(roomId) && v.customer.Some?
  }

  /** A review of the room whose author exists passes the inner join, so the
      query returns it, as often as the reviews table holds it. */
  lemma ReachesRoomReviews(t: Tables, roomId: nat)
    ensures forall k :: 0 <= k < |t.reviews| ==>
      (t.reviews[k].roomId == Num(roomId) && Rows.Refers(t.customers, CustomerKey, t.reviews[k].customerId)
      ==> multiset(Sorting.OrderedWhere(Views(t), (v: ReviewView) => OfRoom(roomId, v), CreatedAt, true))[ViewOf(t, t.reviews[k])]
          == multiset(t.reviews)[t.reviews[k]])
  {
    var all := Views(t);
    var r := Sorting.OrderedWhere(all, (v: ReviewView) => OfRoom(roomId, v), CreatedAt, true);
    Rows.CountsMapped(t.reviews, all, (x: Review) => ViewOf(t, x), (v: ReviewView) => v.review);
    forall k | 0 <= k < |t.reviews| && t.reviews[k].roomId == Num(roomId) && Rows.Refers(t.customers, CustomerKey, t.reviews[k].customerId)
      ensures multiset(r)[ViewOf(t, t.reviews[k])] == multiset(t.reviews)[t.reviews[k]]
    {
      Rows.RefersRef(t.customers, CustomerKey, t.reviews[k].customerId);
      assert all[k] == ViewOf(t, t.reviews[k]);
    }
  }

  /** `getReviewsByCustomerId`: the reviews by that customer whose room, and
      the room's type and hotel, all exist (inner joins), newest first. */
  function GetReviewsByCustomerId(t: Tables, customerId: nat): (r: seq<ReviewView>)
    requires Rows.Ascending(t.rooms, RoomKey)
    ensures Sorting.SortedBy(CreatedAt, true, r)
    ensures |r| <= |t.reviews|
    ensures forall i :: 0 <= i < |r| ==>
      && r[i].review in t.reviews && r[i].review.customerId == Num(customerId)
      && r[i].room.Some? && r[i].roomType.Some? && r[i].hotel.Some? && Joined(t, r[i])
    ensures forall k, m :: 0 <= k < |t.reviews| && 0 <= m < |t.rooms| ==>
      (t.reviews[k].customerId == Num(customerId) && t.reviews[k].roomId == Num(t.rooms[m].id)
        && Rows.Refers(t.roomTypes, RoomTypeKey, t.rooms[m].roomTypeId) && Rows.Refers(t.hotels, HotelKey, t.rooms[m].hotelId)
      ==> ViewOf(t, t.reviews[k]) in r && multiset(r)[ViewOf(t, t.reviews[k])] == multiset(t.reviews)[t.reviews[k]])
  {
    ReachesReviews(t, customerId);
    Sorting.OrderedWhere(Views(t), (v: ReviewView) => ByCustomer(customerId, v), CreatedAt, true)
  }

  /** A review by the customer whose room, type and hotel exist passes the
      inner joins, so the query returns it, as often as the reviews table
      holds it. */
  lemma ReachesReviews(t: Tables, customerId: nat)
    requires Rows.Ascending(t.rooms, RoomKey)
    ensures forall k, m :: 0 <= k < |t.reviews| && 0 <= m < |t.rooms| ==>
      (t.reviews[k].customerId == Num(customerId) && t.reviews[k].roomId == Num(t.rooms[m].id)
        && Rows.Refers(t.roomTypes, RoomTypeKey, t.rooms[m].roomTypeId) && Rows.Refers(t.hotels, HotelKey, t.rooms[m].hotelId)
      ==> multiset(Sorting.OrderedWhere(Views(t), (v: ReviewView) => ByCustomer(customerId, v), CreatedAt, true))[ViewOf(t, t.reviews[k])]
          == multiset(t.reviews)[t.reviews[k]])
  {
    var all := Views(t);
    var r := Sorting.OrderedWhere(all, (v: ReviewView) => ByCustomer(customerId, v), CreatedAt, true);
    Rows.CountsMapped(t.reviews, all, (x: Review) => ViewOf(t, x), (v: ReviewView) => v.review);
    forall k, m | 0 <= k < |t.reviews| && 0 <= m < |t.rooms| && t.reviews[k].customerId == Num(customerId)
        && t.reviews[k].roomId == Num(t.rooms[m].id)
        && Rows.Refers(t.roomTypes, RoomTypeKey, t.rooms[m].roomTypeId) && Rows.Refers(t.hotels, HotelKey, t.rooms[m].hotelId)
      ensures multiset(r)[ViewOf(t, t.reviews[k])] == multiset(t.reviews)[t.reviews[k]]
    {
      ReachesRoom(t, t.reviews[k], m);
      assert all[k] == ViewOf(t, t.reviews[k]);
    }
  }

  /** The condition of `getReviewsByCustomerId`: that customer's review,
      with the room, type and hotel its inner joins require. */
  predicate ByCustomer(customerId: nat, v: ReviewView)
  {
    v.review.customerId == Num(customerId) && v.room.Some? && v.roomType.Some? && v.hotel.Some?
  }

  /** A review of an existing room whose type and hotel exist reaches all three. */
  lemma ReachesRoom(t: Tables, r: Review, m: nat)
    requires Rows.Ascending(t.rooms, RoomKey) && m < |t.rooms| && r.roomId == Num(t.rooms[m].id)
    requires Rows.Refers(t.roomTypes, RoomTypeKey, t.rooms[m].roomTypeId) && Rows.Refers(t.hotels, HotelKey, t.rooms[m].hotelId)
    ensures ViewOf(t, r).room == Some(t.rooms[m]) && ViewOf(t, r).roomType.Some? && ViewOf(t, r).hotel.Some?
  {
    Rows.FindAscending(t.rooms, RoomKey, m);
    Rows.RefersRef(t.roomTypes, RoomTypeKey, t.rooms[m].roomTypeId);
    Rows.RefersRef(t.hotels, HotelKey, t.rooms[m].hotelId);
  }

  /** `createReview`: the room, the author and the rating are stored as
      given and a falsy comment as NULL; `now` is the store's clock. The
      route has already refused a falsy author or rating. */
  method CreateReview(db: Store.Database, data: Object, now: int) returns (r: Review)
    requires db.Valid()
    requires Truthy(Get(data, "customer_id")) && Truthy(Get(data, "rating"))
    modifies db
    ensures db.Valid()
    ensures r.id == old(db.next.review) && r.createdAt == Num(now)
    ensures r.roomId == Stored(Get(data, "room_id"))
    ensures r.customerId == Get(data, "customer_id") && r.rating == Get(data, "rating")
    ensures r.comment == (if Falsy(Get(data, "comment")) then Null else Get(data, "comment"))
    ensures db.tables == old(db.tables).(reviews := old(db.tables.reviews) + [r])
    ensures db.next == old(db.next).(review := old(db.next.review) + 1)
  {
    r := db.InsertReview(Get(data, "room_id"), Get(data, "customer_id"), Get(data, "rating"), Or(Get(data, "comment"), Null), now);
  }

  /** `updateReview`: fails with `NoFieldsToUpdate`, changing nothing, when
      neither the rating nor the comment is supplied; otherwise the review
      with that id takes the supplied ones (null included), keeps its room,
      author and date, every other row and table stays as it was, and the
      updated row is returned, or nothing when no review has that id. */
  method UpdateReview(db: Store.Database, id: nat, data: Object) returns (r: Result<Option<Review>>)
    requires db.Valid()
    modifies db
    ensures db.Valid() && db.next == old(db.next)
    ensures r.Failure? <==> Get(data, "rating") == Undefined && Get(data, "comment") == Undefined
    ensures r.Failure? ==> r.error == NoFieldsToUpdate && db.tables == old(db.tables)
    ensures r.Success? ==>
      db.tables == old(db.tables).(reviews := Rows.Patch(old(db.tables.reviews), ReviewKey, id, (x: Review) => Updated(x, data)))
    ensures r.Success? ==>
      var found := GetReviewById(old(db.tables), id);
      r.value == if found.None? then None else Some(Updated(found.value.review, data))
  {
    var built := PartialUpdate.Build(Columns, data, id);
    if built.Failure? {
      assert Get(data, Columns[0]) == Undefined && Get(data, Columns[1]) == Undefined;
      return Failure(built.error);
    }
    var cmd := built.value;
    PatchesAsUpdated(db.tables.reviews, db.next.review, data, id, cmd);
    db.tables := db.tables.(reviews := Rows.Patch(db.tables.reviews, ReviewKey, id, Run(cmd)));
    r := Success(Rows.Find(db.tables.reviews, ReviewKey, id));
  }

  /** What the store does to a review when it runs `cmd`. */
  function Run(cmd: PartialUpdate.Command): Review -> Review
    requires PartialUpdate.Runs(Columns, cmd.sets, cmd.values)
  {
    (x: Review) => WithCells(x, PartialUpdate.Assign(Columns, cmd.sets, cmd.values, Cells(x)))
  }

  /** Running the built command on the table is the intended update of the
      review with that id. */
  lemma PatchesAsUpdated(before: seq<Review>, next: nat, data: Object, id: nat, cmd: PartialUpdate.Command)
    requires Rows.Keyed(before, ReviewKey, next)
    requires PartialUpdate.Describes(cmd, PartialUpdate.Supplied(Columns, data), id)
    ensures PartialUpdate.Runs(Columns, cmd.sets, cmd.values)
    ensures Rows.Patch(before, ReviewKey, id, Run(cmd)) == Rows.Patch(before, ReviewKey, id, (x: Review) => Updated(x, data))
    ensures Rows.Keyed(Rows.Patch(before, ReviewKey, id, Run(cmd)), ReviewKey, next)
    ensures Rows.Find(Rows.Patch(before, ReviewKey, id, Run(cmd)), ReviewKey, id)
      == if Rows.Find(before, ReviewKey, id).None? then None else Some(Updated(Rows.Find(before, ReviewKey, id).value, data))
  {
    RunsAsUpdated(data, id, cmd);
    Rows.PatchAs(before, ReviewKey, next, id, Run(cmd), (x: Review) => Updated(x, data));
  }

  /** The store runs the command `Build` made from `data` on any review as
      the intended partial update of that review. */
  lemma RunsAsUpdated(data: Object, id: nat, cmd: PartialUpdate.Command)
    requires PartialUpdate.Describes(cmd, PartialUpdate.Supplied(Columns, data), id)
    ensures PartialUpdate.Runs(Columns, cmd.sets, cmd.values)
    ensures forall x: Review :: WithCells(x, PartialUpdate.Assign(Columns, cmd.sets, cmd.values, Cells(x))) == Updated(x, data)
  {
    assert PartialUpdate.Distinct(Columns);
    PartialUpdate.ExecuteBuilt(Columns, data, id, cmd, Cells(Review(0, Null, Null, Null, Null, Null)));
    forall x: Review
      ensures WithCells(x, PartialUpdate.Assign(Columns, cmd.sets, cmd.values, Cells(x))) == Updated(x, data)
    {
      PartialUpdate.ExecuteBuilt(Columns, data, id, cmd, Cells(x));
    }
  }

  /** A room or author sent to `updateReview` is never read: the update is
      the same with or without it. */
  lemma UpdateIgnoresOwnership(data: Object, roomId: JsVal, customerId: JsVal)
    ensures PartialUpdate.Supplied(Columns, data["room_id" := roomId]["customer_id" := customerId])
         == PartialUpdate.Supplied(Columns, data)
  {
    PartialUpdate.SuppliedIgnoresUnlisted(Columns, data["room_id" := roomId], "customer_id", customerId);
    PartialUpdate.SuppliedIgnoresUnlisted(Columns, data, "room_id", roomId);
  }

  /** A review update sets one or two columns, so its WHERE clause uses
      placeholder 2 or 3. */
  lemma WherePlaceholder(data: Object, id: nat, cmd: PartialUpdate.Command)
    requires PartialUpdate.Describes(cmd, PartialUpdate.Supplied(Columns, data), id) && cmd.sets != []
    ensures cmd.wherePlaceholder == 2 || cmd.wherePlaceholder == 3
  {
    PartialUpdate.SuppliedFromData(Columns, data);
  }

  /** `deleteReview`: removes the review with that id and returns it, or
      returns nothing and changes nothing. No other table changes. */
  method DeleteReview(db: Store.Database, id: nat) returns (r: Option<Review>)
    requires db.Valid()
    modifies db
    ensures db.Valid() && db.next == old(db.next)
    ensures r == Rows.Find(old(db.tables.reviews), ReviewKey, id)
    ensures r.None? ==> db.tables == old(db.tables)
    ensures r.Some? ==> db.tables == old(db.tables).(reviews := db.tables.reviews)
    ensures r.Some? ==> multiset(db.tables.reviews) == multiset(old(db.tables.reviews)) - multiset{r.value}
  {
    r := Rows.Find(db.tables.reviews, ReviewKey, id);
    Rows.DeleteFound(db.tables.reviews, ReviewKey, db.next.review, id);
    db.tables := db.tables.(reviews := Rows.Delete(db.tables.reviews, ReviewKey, id));
  }
}
