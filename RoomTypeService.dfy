/** services/roomTypeService.js */
module RoomTypeService {
  import opened Js
  import opened Outcomes
  import opened Schema
  import Store
  import Rows
  import Sorting
  import PartialUpdate
  import RoomService

  /** The columns `updateRoomType` accepts, in the order it tests them. */
  const Columns: seq<string> := ["hotel_id", "type_name", "description", "base_price"]

  /** A room type's updatable cells, in `Columns` order. */
  function Cells(rt: RoomType): (cells: seq<JsVal>)
    ensures |cells| == |Columns|
  {
    [rt.hotelId, rt.typeName, rt.description, rt.basePrice]
  }

  function WithCells(rt: RoomType, cells: seq<JsVal>): (r: RoomType)
    requires |cells| == |Columns|
    ensures r.id == rt.id && Cells(r) == cells
  {
    RoomType(rt.id, cells[0], cells[1], cells[2], cells[3])
  }

  /** A room type after a partial update with `data`. */
  function Updated(rt: RoomType, data: Object): RoomType
  {
    WithCells(rt, PartialUpdate.Merge(Columns, data, Cells(rt)))
  }

  /** A room type with the hotel it refers to, as `room_types LEFT JOIN
      hotels` pairs them; `hotel_name` reads as NULL when the hotel is missing. */
  datatype RoomTypeView = RoomTypeView(roomType: RoomType, hotel: Option<Hotel>)
  {
    function HotelName(): JsVal { if hotel.Some? then hotel.value.name else Null }
  }

  function ViewOf(t: Tables, rt: RoomType): (v: RoomTypeView)
    ensures v.roomType == rt && Rows.Joins(t.hotels, HotelKey, rt.hotelId, v.hotel)
  {
    RoomTypeView(rt, Rows.Ref(t.hotels, HotelKey, rt.hotelId))
  }

  /** `getAllRoomTypes`: one row per room type, by ascending id, each with
      its hotel when it exists. */
  function GetAllRoomTypes(t: Tables): (r: seq<RoomTypeView>)
    requires Rows.Ascending(t.roomTypes, RoomTypeKey)
    ensures |r| == |t.roomTypes|
    ensures forall i :: 0 <= i < |r| ==> r[i].roomType == t.roomTypes[i]
    ensures forall i, j :: 0 <= i < j < |r| ==> r[i].roomType.id < r[j].roomType.id
    ensures forall i :: 0 <= i < |r| ==> Rows.Joins(t.hotels, HotelKey, r[i].roomType.hotelId, r[i].hotel)
  {
    seq(|t.roomTypes|, i requires 0 <= i < |t.roomTypes| => ViewOf(t, t.roomTypes[i]))
  }

  /** `getRoomTypeById`: the room type with that id and its hotel when it
      exists, or nothing. */
  function GetRoomTypeById(t: Tables, id: nat): (r: Option<RoomTypeView>)
    ensures r.None? <==> forall k :: 0 <= k < |t.roomTypes| ==> t.roomTypes[k].id != id
    ensures r.Some? ==> r.value.roomType in t.roomTypes && r.value.roomType.id == id
    ensures r.Some? ==> Rows.Joins(t.hotels, HotelKey, r.value.roomType.hotelId, r.value.hotel)
  {
    var found := Rows.Find(t.roomTypes, RoomTypeKey, id);
    if found.None? then None else Some(ViewOf(t, found.value))
  }

  /** The sort key of `getRoomsByRoomType`. */
  function RoomNumber(v: RoomService.RoomView): JsVal
  {
    v.room.roomNumber
  }

  /** `getRoomsByRoomType`: the rooms of that type whose type and hotel both
      exist (inner joins), ordered by room number. */
  function GetRoomsByRoomType(t: Tables, roomTypeId: nat): (r: seq<RoomService.RoomView>)
    requires Rows.Ascending(t.rooms, RoomKey)
    ensures Sorting.SortedBy(RoomNumber, false, r)
    ensures |r| <= |t.rooms|
    ensures forall i :: 0 <= i < |r| ==> var v := r[i];
      && v.room in t.rooms && v.room.roomTypeId == Num(roomTypeId)
      && v.roomType.Some? && v.roomType.value in t.roomTypes && v.roomType.value.id == roomTypeId
      && v.hotel.Some? && Rows.Joins(t.hotels, HotelKey, v.room.hotelId, v.hotel)
    ensures forall k :: 0 <= k < |t.rooms| ==>
      (t.rooms[k].roomTypeId == Num(roomTypeId) && Rows.Refers(t.roomTypes, RoomTypeKey, t.rooms[k].roomTypeId)
        && Rows.Refers(t.hotels, HotelKey, t.rooms[k].hotelId)
      ==> RoomService.ViewOf(t, t.rooms[k]) in r && multiset(r)[RoomService.ViewOf(t, t.rooms[k])] == 1)
  {
    ReachesType(t, roomTypeId);
    Sorting.OrderedWhere(RoomService.GetAllRooms(t), (v: RoomService.RoomView) => OfType(roomTypeId, v), RoomNumber, false)
  }

  /** The condition of `getRoomsByRoomType`: a room of that type, with the
      type and the hotel its inner joins require. */
  predicate OfType(roomTypeId: nat, v: RoomService.RoomView)
  {
    v.roomType.Some? && v.roomType.value.id == roomTypeId && v.hotel.Some?
  }

  /** A room of the type whose type and hotel exist passes the inner joins,
      so the query returns it, and once, as the rooms table holds it once. */
  lemma ReachesType(t: Tables, roomTypeId: nat)
    requires Rows.Ascending(t.rooms, RoomKey)
    ensures forall k :: 0 <= k < |t.rooms| ==>
      (t.rooms[k].roomTypeId == Num(roomTypeId) && Rows.Refers(t.roomTypes, RoomTypeKey, t.rooms[k].roomTypeId)
        && Rows.Refers(t.hotels, HotelKey, t.rooms[k].hotelId)
      ==> multiset(Sorting.OrderedWhere(RoomService.GetAllRooms(t), (v: RoomService.RoomView) => OfType(roomTypeId, v), RoomNumber, false))
            [RoomService.ViewOf(t, t.rooms[k])] == 1)
  {
    var all := RoomService.GetAllRooms(t);
    var r := Sorting.OrderedWhere(all, (v: RoomService.RoomView) => OfType(roomTypeId, v), RoomNumber, false);
    Rows.CountsMapped(t.rooms, all, (x: Room) => RoomService.ViewOf(t, x), (v: RoomService.RoomView) => v.room);
    forall k | 0 <= k < |t.rooms| && t.rooms[k].roomTypeId == Num(roomTypeId)
        && Rows.Refers(t.roomTypes, RoomTypeKey, t.rooms[k].roomTypeId) && Rows.Refers(t.hotels, HotelKey, t.rooms[k].hotelId)
      ensures multiset(r)[RoomService.ViewOf(t, t.rooms[k])] == 1
    {
      Rows.RefersRef(t.roomTypes, RoomTypeKey, t.rooms[k].roomTypeId);
      Rows.RefersRef(t.hotels, HotelKey, t.rooms[k].hotelId);
      assert all[k] == RoomService.ViewOf(t, t.rooms[k]);
      Rows.AscendingOnce(t.rooms, RoomKey, k);
    }
  }

  /** `createRoomType`: the hotel and the type name are stored as given; a
      falsy description or base price is stored as NULL, so a base price of
      0 becomes NULL. The route has already refused a falsy hotel or type name. */
  method CreateRoomType(db: Store.Database, data: Object) returns (rt: RoomType)
    requires db.Valid()
    requires Truthy(Get(data, "hotel_id")) && Truthy(Get(data, "type_name"))
    modifies db
    ensures db.Valid()
    ensures rt.id == old(db.next.roomType)
    ensures rt.hotelId == Get(data, "hotel_id") && rt.typeName == Get(data, "type_name")
    ensures rt.description == (if Falsy(Get(data, "description")) then Null else Get(data, "description"))
    ensures rt.basePrice == (if Falsy(Get(data, "base_price")) then Null else Get(data, "base_price"))
    ensures db.tables == old(db.tables).(roomTypes := old(db.tables.roomTypes) + [rt])
    ensures db.next == old(db.next).(roomType := old(db.next.roomType) + 1)
  {
    rt := db.InsertRoomType(Get(data, "hotel_id"), Get(data, "type_name"),
      Or(Get(data, "description"), Null), Or(Get(data, "base_price"), Null));
  }

  /** `updateRoomType`: fails with `NoFieldsToUpdate`, changing nothing, when
      no allow-listed field is supplied; otherwise the room type with that
      id takes the supplied fields (null included) and keeps the others,
      every other row and table stays as it was, and the updated row is
      returned, or nothing when no room type has that id. */
  method UpdateRoomType(db: Store.Database, id: nat, data: Object) returns (r: Result<Option<RoomType>>)
    requires db.Valid()
    modifies db
    ensures db.Valid() && db.next == old(db.next)
    ensures r.Failure? <==> forall j :: 0 <= j < |Columns| ==> Get(data, Columns[j]) == Undefined
    ensures r.Failure? ==> r.error == NoFieldsToUpdate && db.tables == old(db.tables)
    ensures r.Success? ==>
      db.tables == old(db.tables).(roomTypes := Rows.Patch(old(db.tables.roomTypes), RoomTypeKey, id, (x: RoomType) => Updated(x, data)))
    ensures r.Success? ==>
      var found := Rows.Find(old(db.tables.roomTypes), RoomTypeKey, id);
      r.value == if found.None? then None else Some(Updated(found.value, data))
  {
    var built := PartialUpdate.Build(Columns, data, id);
    if built.Failure? {
      return Failure(built.error);
    }
    var cmd := built.value;
    PatchesAsUpdated(db.tables.roomTypes, db.next.roomType, data, id, cmd);
    db.tables := db.tables.(roomTypes := Rows.Patch(db.tables.roomTypes, RoomTypeKey, id, Run(cmd)));
    r := Success(Rows.Find(db.tables.roomTypes, RoomTypeKey, id));
  }

  /** What the store does to a room type when it runs `cmd`. */
  function Run(cmd: PartialUpdate.Command): RoomType -> RoomType
    requires PartialUpdate.Runs(Columns, cmd.sets, cmd.values)
  {
    (x: RoomType) => WithCells(x, PartialUpdate.Assign(Columns, cmd.sets, cmd.values, Cells(x)))
  }

  /** Running the built command on the table is the intended update of the
      room type with that id. */
  lemma PatchesAsUpdated(before: seq<RoomType>, next: nat, data: Object, id: nat, cmd: PartialUpdate.Command)
    requires Rows.Keyed(before, RoomTypeKey, next)
    requires PartialUpdate.Describes(cmd, PartialUpdate.Supplied(Columns, data), id)
    ensures PartialUpdate.Runs(Columns, cmd.sets, cmd.values)
    ensures Rows.Patch(before, RoomTypeKey, id, Run(cmd)) == Rows.Patch(before, RoomTypeKey, id, (x: RoomType) => Updated(x, data))
    ensures Rows.Keyed(Rows.Patch(before, RoomTypeKey, id, Run(cmd)), RoomTypeKey, next)
    ensures Rows.Find(Rows.Patch(before, RoomTypeKey, id, Run(cmd)), RoomTypeKey, id)
      == if Rows.Find(before, RoomTypeKey, id).None? then None else Some(Updated(Rows.Find(before, RoomTypeKey, id).value, data))
  {
    RunsAsUpdated(data, id, cmd);
    Rows.PatchAs(before, RoomTypeKey, next, id, Run(cmd), (x: RoomType) => Updated(x, data));
  }

  /** The store runs the command `Build` made from `data` on any room type as
      the intended partial update of that room type. */
  lemma RunsAsUpdated(data: Object, id: nat, cmd: PartialUpdate.Command)
    requires PartialUpdate.Describes(cmd, PartialUpdate.Supplied(Columns, data), id)
    ensures PartialUpdate.Runs(Columns, cmd.sets, cmd.values)
    ensures forall x: RoomType :: WithCells(x, PartialUpdate.Assign(Columns, cmd.sets, cmd.values, Cells(x))) == Updated(x, data)
  {
    assert PartialUpdate.Distinct(Columns);
    PartialUpdate.ExecuteBuilt(Columns, data, id, cmd, Cells(RoomType(0, Null, Null, Null, Null)));
    forall x: RoomType
      ensures WithCells(x, PartialUpdate.Assign(Columns, cmd.sets, cmd.values, Cells(x))) == Updated(x, data)
    {
      PartialUpdate.ExecuteBuilt(Columns, data, id, cmd, Cells(x));
    }
  }

  /** `deleteRoomType`: removes the room type with that id and returns it, or
      returns nothing and changes nothing. No other table changes. */
  method DeleteRoomType(db: Store.Database, id: nat) returns (r: Option<RoomType>)
    requires db.Valid()
    modifies db
    ensures db.Valid() && db.next == old(db.next)
    ensures r == Rows.Find(old(db.tables.roomTypes), RoomTypeKey, id)
    ensures r.None? ==> db.tables == old(db.tables)
    ensures r.Some? ==> db.tables == old(db.tables).(roomTypes := db.tables.roomTypes)
    ensures r.Some? ==> multiset(db.tables.roomTypes) == multiset(old(db.tables.roomTypes)) - multiset{r.value}
  {
    r := Rows.Find(db.tables.roomTypes, RoomTypeKey, id);
    Rows.DeleteFound(db.tables.roomTypes, RoomTypeKey, db.next.roomType, id);
    db.tables := db.tables.(roomTypes := Rows.Delete(db.tables.roomTypes, RoomTypeKey, id));
  }
}
