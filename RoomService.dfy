/** services/roomService.js */
module RoomService {
  import opened Js
  import opened Outcomes
  import opened Schema
  import Store
  import Rows
  import PartialUpdate

  /** The columns `updateRoom` accepts, in the order it tests them. */
  const Columns: seq<string> := ["hotel_id", "room_type_id", "room_number", "floor", "status"]

  /** A room's updatable cells, in `Columns` order. */
  function Cells(r: Room): (cells: seq<JsVal>)
    ensures |cells| == |Columns|
  {
    [r.hotelId, r.roomTypeId, r.roomNumber, r.floor, r.status]
  }

  function WithCells(r: Room, cells: seq<JsVal>): (r': Room)
    requires |cells| == |Columns|
    ensures r'.id == r.id && Cells(r') == cells
  {
    Room(r.id, cells[0], cells[1], cells[2], cells[3], cells[4])
  }

  /** A room after a partial update with `data`. */
  function Updated(r: Room, data: Object): Room
  {
    WithCells(r, PartialUpdate.Merge(Columns, data, Cells(r)))
  }

  /** A room with the room type and the hotel its foreign keys refer to, as
      `rooms LEFT JOIN room_types LEFT JOIN hotels` pairs them; the joined
      columns of a missing type or hotel read as NULL. */
  datatype RoomView = RoomView(room: Room, roomType: Option<RoomType>, hotel: Option<Hotel>)
  {
    function TypeName(): JsVal { if roomType.Some? then roomType.value.typeName else Null }
    function BasePrice(): JsVal { if roomType.Some? then roomType.value.basePrice else Null }
    function TypeDescription(): JsVal { if roomType.Some? then roomType.value.description else Null }
    function HotelName(): JsVal { if hotel.Some? then hotel.value.name else Null }
    function Location(): JsVal { if hotel.Some? then hotel.value.location else Null }
  }

  /** The joined row of one room. */
  function ViewOf(t: Tables, r: Room): (v: RoomView)
    ensures v.room == r
    ensures Rows.Joins(t.roomTypes, RoomTypeKey, r.roomTypeId, v.roomType)
    ensures Rows.Joins(t.hotels, HotelKey, r.hotelId, v.hotel)
  {
    RoomView(r, Rows.Ref(t.roomTypes, RoomTypeKey, r.roomTypeId), Rows.Ref(t.hotels, HotelKey, r.hotelId))
  }

  /** `getAllRooms`: one row per room, by ascending id, each with its type
      and hotel when they exist. */
  function GetAllRooms(t: Tables): (r: seq<RoomView>)
    requires Rows.Ascending(t.rooms, RoomKey)
    ensures |r| == |t.rooms|
    ensures forall i :: 0 <= i < |r| ==> r[i].room == t.rooms[i] && r[i] == ViewOf(t, t.rooms[i])
    ensures forall i, j :: 0 <= i < j < |r| ==> r[i].room.id < r[j].room.id
    ensures forall i :: 0 <= i < |r| ==>
      Rows.Joins(t.roomTypes, RoomTypeKey, r[i].room.roomTypeId, r[i].roomType) && Rows.Joins(t.hotels, HotelKey, r[i].room.hotelId, r[i].hotel)
  {
    seq(|t.rooms|, i requires 0 <= i < |t.rooms| => ViewOf(t, t.rooms[i]))
  }

  /** `getRoomById`: the room with that id and its type and hotel when they
      exist, or nothing. */
  function GetRoomById(t: Tables, id: nat): (r: Option<RoomView>)
    ensures r.None? <==> forall k :: 0 <= k < |t.rooms| ==> t.rooms[k].id != id
    ensures r.Some? ==> r.value.room in t.rooms && r.value.room.id == id
    ensures r.Some? ==>
      Rows.Joins(t.roomTypes, RoomTypeKey, r.value.room.roomTypeId, r.value.roomType) && Rows.Joins(t.hotels, HotelKey, r.value.room.hotelId, r.value.hotel)
  {
    var found := Rows.Find(t.rooms, RoomKey, id);
    if found.None? then None else Some(ViewOf(t, found.value))
  }

  /** `createRoom`: the hotel and the room number are stored as given; a
      falsy room type or floor is stored as NULL, so floor 0 becomes NULL,
      and a falsy status becomes 'available'. The route has already refused
      a falsy hotel or room number. */
  method CreateRoom(db: Store.Database, data: Object) returns (r: Room)
    requires db.Valid()
    requires Truthy(Get(data, "hotel_id")) && Truthy(Get(data, "room_number"))
    modifies db
    ensures db.Valid()
    ensures r.id == old(db.next.room)
    ensures r.hotelId == Get(data, "hotel_id") && r.roomNumber == Get(data, "room_number")
    ensures r.roomTypeId == (if Falsy(Get(data, "room_type_id")) then Null else Get(data, "room_type_id"))
    ensures r.floor == (if Falsy(Get(data, "floor")) then Null else Get(data, "floor"))
    ensures r.status == (if Falsy(Get(data, "status")) then Str("available") else Get(data, "status"))
    ensures db.tables == old(db.tables).(rooms := old(db.tables.rooms) + [r])
    ensures db.next == old(db.next).(room := old(db.next.room) + 1)
  {
    r := db.InsertRoom(Get(data, "hotel_id"), Or(Get(data, "room_type_id"), Null), Get(data, "room_number"),
      Or(Get(data, "floor"), Null), Or(Get(data, "status"), Str("available")));
  }

  /** Floor 0 and an empty status reach the two write paths differently:
      `createRoom` turns them into NULL and 'available' with `||`, while
      `updateRoom` writes them as sent, since it only skips `undefined`. */
  lemma GroundFloor(r: Room, data: Object)
    requires Get(data, "floor") == Num(0) && Get(data, "status") == Str("")
    ensures Or(Get(data, "floor"), Null) == Null && Or(Get(data, "status"), Str("available")) == Str("available")
    ensures Updated(r, data).floor == Num(0) && Updated(r, data).status == Str("")
  {
  }

  /** `updateRoom`: fails with `NoFieldsToUpdate`, changing nothing, when no
      allow-listed field is supplied; otherwise the room with that id takes
      the supplied fields (null included) and keeps the others, every other
      row and table stays as it was, and the updated row is returned, or
      nothing when no room has that id. */
  method UpdateRoom(db: Store.Database, id: nat, data: Object) returns (r: Result<Option<Room>>)
    requires db.Valid()
    modifies db
    ensures db.Valid() && db.next == old(db.next)
    ensures r.Failure? <==> forall j :: 0 <= j < |Columns| ==> Get(data, Columns[j]) == Undefined
    ensures r.Failure? ==> r.error == NoFieldsToUpdate && db.tables == old(db.tables)
    ensures r.Success? ==>
      db.tables == old(db.tables).(rooms := Rows.Patch(old(db.tables.rooms), RoomKey, id, (x: Room) => Updated(x, data)))
    ensures r.Success? ==>
      var found := Rows.Find(old(db.tables.rooms), RoomKey, id);
      r.value == if found.None? then None else Some(Updated(found.value, data))
  {
    var built := PartialUpdate.Build(Columns, data, id);
    if built.Failure? {
      return Failure(built.error);
    }
    var cmd := built.value;
    PatchesAsUpdated(db.tables.rooms, db.next.room, data, id, cmd);
    db.tables := db.tables.(rooms := Rows.Patch(db.tables.rooms, RoomKey, id, Run(cmd)));
    r := Success(Rows.Find(db.tables.rooms, RoomKey, id));
  }

  /** What the store does to a room when it runs `cmd`. */
  function Run(cmd: PartialUpdate.Command): Room -> Room
    requires PartialUpdate.Runs(Columns, cmd.sets, cmd.values)
  {
    (x: Room) => WithCells(x, PartialUpdate.Assign(Columns, cmd.sets, cmd.values, Cells(x)))
  }

  /** Running the built command on the table is the intended update of the
      room with that id. */
  lemma PatchesAsUpdated(before: seq<Room>, next: nat, data: Object, id: nat, cmd: PartialUpdate.Command)
    requires Rows.Keyed(before, RoomKey, next)
    requires PartialUpdate.Describes(cmd, PartialUpdate.Supplied(Columns, data), id)
    ensures PartialUpdate.Runs(Columns, cmd.sets, cmd.values)
    ensures Rows.Patch(before, RoomKey, id, Run(cmd)) == Rows.Patch(before, RoomKey, id, (x: Room) => Updated(x, data))
    ensures Rows.Keyed(Rows.Patch(before, RoomKey, id, Run(cmd)), RoomKey, next)
    ensures Rows.Find(Rows.Patch(before, RoomKey, id, Run(cmd)), RoomKey, id)
      == if Rows.Find(before, RoomKey, id).None? then None else Some(Updated(Rows.Find(before, RoomKey, id).value, data))
  {
    RunsAsUpdated(data, id, cmd);
    Rows.PatchAs(before, RoomKey, next, id, Run(cmd), (x: Room) => Updated(x, data));
  }

  /** The store runs the command `Build` made from `data` on any room as the
      intended partial update of that room. */
  lemma RunsAsUpdated(data: Object, id: nat, cmd: PartialUpdate.Command)
    requires PartialUpdate.Describes(cmd, PartialUpdate.Supplied(Columns, data), id)
    ensures PartialUpdate.Runs(Columns, cmd.sets, cmd.values)
    ensures forall x: Room :: WithCells(x, PartialUpdate.Assign(Columns, cmd.sets, cmd.values, Cells(x))) == Updated(x, data)
  {
    assert PartialUpdate.Distinct(Columns);
    PartialUpdate.ExecuteBuilt(Columns, data, id, cmd, Cells(Room(0, Null, Null, Null, Null, Null)));
    forall x: Room
      ensures WithCells(x, PartialUpdate.Assign(Columns, cmd.sets, cmd.values, Cells(x))) == Updated(x, data)
    {
      PartialUpdate.ExecuteBuilt(Columns, data, id, cmd, Cells(x));
    }
  }

  /** `deleteRoom`: removes the room with that id and returns it, or returns
      nothing and changes nothing. No other table changes. */
  method DeleteRoom(db: Store.Database, id: nat) returns (r: Option<Room>)
    requires db.Valid()
    modifies db
    ensures db.Valid() && db.next == old(db.next)
    ensures r == Rows.Find(old(db.tables.rooms), RoomKey, id)
    ensures r.None? ==> db.tables == old(db.tables)
    ensures r.Some? ==> db.tables == old(db.tables).(rooms := db.tables.rooms)
    ensures r.Some? ==> multiset(db.tables.rooms) == multiset(old(db.tables.rooms)) - multiset{r.value}
  {
    r := Rows.Find(db.tables.rooms, RoomKey, id);
    Rows.DeleteFound(db.tables.rooms, RoomKey, db.next.room, id);
    db.tables := db.tables.(rooms := Rows.Delete(db.tables.rooms, RoomKey, id));
  }
}
