/** services/hotelService.js */
module HotelService {
  import opened Js
  import opened Outcomes
  import opened Schema
  import Store
  import Rows
  import PartialUpdate

  /** The columns `updateHotel` accepts, in the order it tests them. */
  const Columns: seq<string> := ["name", "location", "rating", "price_per_night", "description"]

  /** A hotel's updatable cells, in `Columns` order. */
  function Cells(h: Hotel): (c: seq<JsVal>)
    ensures |c| == |Columns|
  {
    [h.name, h.location, h.rating, h.pricePerNight, h.description]
  }

  function WithCells(h: Hotel, c: seq<JsVal>): (r: Hotel)
    requires |c| == |Columns|
    ensures r.id == h.id && Cells(r) == c
  {
    Hotel(h.id, c[0], c[1], c[2], c[3], c[4])
  }

  /** A hotel after a partial update with `data`. */
  function Updated(h: Hotel, data: Object): Hotel
  {
    WithCells(h, PartialUpdate.Merge(Columns, data, Cells(h)))
  }

  /** `getAllHotels`: every hotel, by ascending id. */
  function GetAllHotels(t: Tables): (r: seq<Hotel>)
    requires Rows.Ascending(t.hotels, HotelKey)
    ensures multiset(r) == multiset(t.hotels)
    ensures forall i, j :: 0 <= i < j < |r| ==> r[i].id < r[j].id
  {
    t.hotels
  }

  /** `getHotelById`: the hotel with that id, or nothing. */
  function GetHotelById(t: Tables, id: nat): (r: Option<Hotel>)
    ensures r.Some? ==> r.value in t.hotels && r.value.id == id
    ensures r.None? <==> forall h :: h in t.hotels ==> h.id != id
  {
    Rows.Find(t.hotels, HotelKey, id)
  }

  /** `createHotel`: name and location are stored as given; a falsy rating,
      price or description is stored as NULL, so a rating of 0 becomes NULL.
      The route has already refused a falsy name or location. */
  method CreateHotel(db: Store.Database, data: Object) returns (h: Hotel)
    requires db.Valid()
    requires Truthy(Get(data, "name")) && Truthy(Get(data, "location"))
    modifies db
    ensures db.Valid()
    ensures h.id == old(db.next.hotel)
    ensures h.name == Get(data, "name") && h.location == Get(data, "location")
    ensures h.rating == (if Falsy(Get(data, "rating")) then Null else Get(data, "rating"))
    ensures h.pricePerNight == (if Falsy(Get(data, "price_per_night")) then Null else Get(data, "price_per_night"))
    ensures h.description == (if Falsy(Get(data, "description")) then Null else Get(data, "description"))
    ensures db.tables == old(db.tables).(hotels := old(db.tables.hotels) + [h])
    ensures db.next == old(db.next).(hotel := old(db.next.hotel) + 1)
  {
    h := db.InsertHotel(Get(data, "name"), Get(data, "location"),
      Or(Get(data, "rating"), Null), Or(Get(data, "price_per_night"), Null), Or(Get(data, "description"), Null));
  }

  /** A rating of 0 reaches the two write paths differently: `createHotel`
      defaults it to NULL with `||`, while `updateHotel` writes it, since it
      only skips `undefined`. An explicit null is written by the update too. */
  lemma ZeroRating(h: Hotel, data: Object)
    requires Get(data, "rating") == Num(0)
    ensures Or(Get(data, "rating"), Null) == Null
    ensures Updated(h, data).rating == Num(0)
    ensures Updated(h.(rating := Num(5)), data["rating" := Null]).rating == Null
  {
  }

  /** `updateHotel`: fails with `NoFieldsToUpdate`, changing nothing, when
      no allow-listed field is supplied; otherwise the hotel with that id
      takes the supplied fields (null included) and keeps the others, every
      other row and table stays as it was, and the updated row is returned,
      or nothing when no hotel has that id. */
  method UpdateHotel(db: Store.Database, id: nat, data: Object) returns (r: Result<Option<Hotel>>)
    requires db.Valid()
    modifies db
    ensures db.Valid() && db.next == old(db.next)
    ensures r.Failure? <==> forall j :: 0 <= j < |Columns| ==> Get(data, Columns[j]) == Undefined
    ensures r.Failure? ==> r.error == NoFieldsToUpdate && db.tables == old(db.tables)
    ensures r.Success? ==>
      db.tables == old(db.tables).(hotels := Rows.Patch(old(db.tables.hotels), HotelKey, id, (h: Hotel) => Updated(h, data)))
    ensures r.Success? ==>
      var found := GetHotelById(old(db.tables), id);
      r.value == if found.None? then None else Some(Updated(found.value, data))
  {
    var built := PartialUpdate.Build(Columns, data, id);
    if built.Failure? {
      return Failure(built.error);
    }
    var cmd := built.value;
    PatchesAsUpdated(db.tables.hotels, db.next.hotel, data, id, cmd);
    db.tables := db.tables.(hotels := Rows.Patch(db.tables.hotels, HotelKey, id, Run(cmd)));
    r := Success(Rows.Find(db.tables.hotels, HotelKey, id));
  }

  /** What the store does to a hotel when it runs `cmd`. */
  function Run(cmd: PartialUpdate.Command): Hotel -> Hotel
    requires PartialUpdate.Runs(Columns, cmd.sets, cmd.values)
  {
    (h: Hotel) => WithCells(h, PartialUpdate.Assign(Columns, cmd.sets, cmd.values, Cells(h)))
  }

  /** Running the built command on the table is the intended update of the
      hotel with that id. */
  lemma PatchesAsUpdated(before: seq<Hotel>, next: nat, data: Object, id: nat, cmd: PartialUpdate.Command)
    requires Rows.Keyed(before, HotelKey, next)
    requires PartialUpdate.Describes(cmd, PartialUpdate.Supplied(Columns, data), id)
    ensures PartialUpdate.Runs(Columns, cmd.sets, cmd.values)
    ensures Rows.Patch(before, HotelKey, id, Run(cmd)) == Rows.Patch(before, HotelKey, id, (h: Hotel) => Updated(h, data))
    ensures Rows.Keyed(Rows.Patch(before, HotelKey, id, Run(cmd)), HotelKey, next)
    ensures Rows.Find(Rows.Patch(before, HotelKey, id, Run(cmd)), HotelKey, id)
      == if Rows.Find(before, HotelKey, id).None? then None else Some(Updated(Rows.Find(before, HotelKey, id).value, data))
  {
    RunsAsUpdated(data, id, cmd);
    Rows.PatchAs(before, HotelKey, next, id, Run(cmd), (h: Hotel) => Updated(h, data));
  }

  /** The store runs the command `Build` made from `data` on any hotel as
      the intended partial update of that hotel. */
  lemma RunsAsUpdated(data: Object, id: nat, cmd: PartialUpdate.Command)
    requires PartialUpdate.Describes(cmd, PartialUpdate.Supplied(Columns, data), id)
    ensures PartialUpdate.Runs(Columns, cmd.sets, cmd.values)
    ensures forall h: Hotel :: WithCells(h, PartialUpdate.Assign(Columns, cmd.sets, cmd.values, Cells(h))) == Updated(h, data)
  {
    assert PartialUpdate.Distinct(Columns);
    PartialUpdate.ExecuteBuilt(Columns, data, id, cmd, Cells(Hotel(0, Null, Null, Null, Null, Null)));
    forall h: Hotel
      ensures WithCells(h, PartialUpdate.Assign(Columns, cmd.sets, cmd.values, Cells(h))) == Updated(h, data)
    {
      PartialUpdate.ExecuteBuilt(Columns, data, id, cmd, Cells(h));
    }
  }

  /** `deleteHotel`: removes the hotel with that id and returns it, or
      returns nothing and changes nothing. No other table changes. */
  method DeleteHotel(db: Store.Database, id: nat) returns (r: Option<Hotel>)
    requires db.Valid()
    modifies db
    ensures db.Valid() && db.next == old(db.next)
    ensures r == GetHotelById(old(db.tables), id)
    ensures r.None? ==> db.tables == old(db.tables)
    ensures r.Some? ==> db.tables == old(db.tables).(hotels := db.tables.hotels)
    ensures r.Some? ==> multiset(db.tables.hotels) == multiset(old(db.tables.hotels)) - multiset{r.value}
  {
    r := Rows.Find(db.tables.hotels, HotelKey, id);
    Rows.DeleteFound(db.tables.hotels, HotelKey, db.next.hotel, id);
    db.tables := db.tables.(hotels := Rows.Delete(db.tables.hotels, HotelKey, id));
  }
}
