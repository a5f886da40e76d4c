/** The decisions of the HTTP room routes in server/routes/roomRoutes.js:
    `POST /create`, `POST /join` and `GET /:roomId`, over the room table
    the store holds, kept here as a map from room id to room. Each route
    returns its response and the table after it. */
module RoomRoutes {
  import opened Basics
  import opened RoomModel

  /** Room ids shorter than this are refused. */
  const MIN_ROOM_ID_LENGTH: nat := 6

  const INVALID_ID_HINT: string := "Invalid room ID (must be at least 6 characters)"
  const INVALID_ID: string := "Invalid room ID"
  const ID_TAKEN: string := "Room ID already exists. Try a different one."
  const NO_SUCH_ROOM: string := "Room does not exist"
  const ROOM_NOT_FOUND: string := "Room not found"

  /** A JSON response body: an error, or `success: true` with the room id
      and, for the fetch route, the room's summary. */
  datatype Body =
    | Error(error: string)
    | Success(roomId: RoomId)
    | RoomInfo(roomId: RoomId, createdAt: Time, lastActivity: Time, drawingCount: nat)

  datatype Response = Response(status: nat, body: Body)

  /** `!roomId || roomId.length < 6`, negated: present and long enough. A
      missing field and the empty string are both falsy. */
  predicate ValidRoomId(roomId: Option<string>)
  {
    roomId.Some? && |roomId.value| >= MIN_ROOM_ID_LENGTH
  }

  /** `roomName || roomId`: a missing or empty name falls back to the id. */
  function NameOrId(roomName: Option<string>, roomId: RoomId): (name: string)
    ensures roomName.Some? && roomName.value != [] ==> name == roomName.value
    ensures !(roomName.Some? && roomName.value != []) ==> name == roomId
  {
    if roomName.Some? && roomName.value != [] then roomName.value else roomId
  }

  /** `POST /create`: an invalid id or one already taken is refused with
      400 and the table unchanged; otherwise exactly one room, empty and
      created now, is added under that id and 201 is returned with it. */
  function CreateRoom(table: map<RoomId, Room>, roomId: Option<string>, roomName: Option<string>, now: Time)
    : (r: (Response, map<RoomId, Room>))
    ensures !ValidRoomId(roomId) ==> r == (Response(400, Error(INVALID_ID_HINT)), table)
    ensures ValidRoomId(roomId) && roomId.value in table ==> r == (Response(400, Error(ID_TAKEN)), table)
    ensures ValidRoomId(roomId) && roomId.value !in table ==>
      && r.0 == Response(201, Success(roomId.value))
      && r.1.Keys == table.Keys + {roomId.value}
      && r.1[roomId.value] == Room(roomId.value, NameOrId(roomName, roomId.value), now, now, [])
      && forall id :: id in table ==> r.1[id] == table[id]
    ensures r.0.status == 201 <==> ValidRoomId(roomId) && roomId.value !in table
  {
    if !ValidRoomId(roomId) then
      (Response(400, Error(INVALID_ID_HINT)), table)
    else if roomId.value in table then
      (Response(400, Error(ID_TAKEN)), table)
    else
      var id := roomId.value;
      (Response(201, Success(id)), MapPut(table, id, Room(id, NameOrId(roomName, id), now, now, [])))
  }

  /** `POST /join`: 400 for an invalid id, 404 for an unknown one, 200 with
      the id for a room in the table. */
  function JoinRoom(table: map<RoomId, Room>, roomId: Option<string>): (r: Response)
    ensures r.status == 400 <==> !ValidRoomId(roomId)
    ensures r.status == 404 <==> ValidRoomId(roomId) && roomId.value !in table
    ensures r.status == 200 <==> ValidRoomId(roomId) && roomId.value in table
    ensures r.status == 200 && KeyedById(table) ==> r.body == Success(roomId.value)
    ensures r.status != 200 ==> r.body.Error?
  {
    if !ValidRoomId(roomId) then Response(400, Error(INVALID_ID_HINT))
    else if roomId.value !in table then Response(404, Error(NO_SUCH_ROOM))
    else Response(200, Success(table[roomId.value].roomId))
  }

  /** `GET /:roomId`: 400 for an invalid id, 404 for an unknown one, and
      otherwise 200 with the room's times and the length of its log. */
  function GetRoom(table: map<RoomId, Room>, roomId: string): (r: Response)
    ensures r.status == 400 <==> |roomId| < MIN_ROOM_ID_LENGTH
    ensures r.status == 404 <==> |roomId| >= MIN_ROOM_ID_LENGTH && roomId !in table
    ensures r.status == 200 <==> |roomId| >= MIN_ROOM_ID_LENGTH && roomId in table
    ensures r.status == 200 ==>
      && r.body.RoomInfo?
      && r.body.drawingCount == |table[roomId].drawingData|
      && r.body.createdAt == table[roomId].createdAt
      && r.body.lastActivity == table[roomId].lastActivity
    ensures r.status == 200 && KeyedById(table) ==> r.body.roomId == roomId
    ensures r.status != 200 ==> r.body.Error?
  {
    if |roomId| < MIN_ROOM_ID_LENGTH then Response(400, Error(INVALID_ID))
    else if roomId !in table then Response(404, Error(ROOM_NOT_FOUND))
    else
      var room := table[roomId];
      Response(200, RoomInfo(room.roomId, room.createdAt, room.lastActivity, |room.drawingData|))
  }

  /** Every room in the table is stored under its own id. */
  ghost predicate KeyedById(table: map<RoomId, Room>)
  {
    forall id :: id in table ==> table[id].roomId == id
  }

  /** Creating keeps every room stored under its own id. */
  lemma CreateKeepsKeyedById(table: map<RoomId, Room>, roomId: Option<string>, roomName: Option<string>, now: Time)
    requires KeyedById(table)
    ensures KeyedById(CreateRoom(table, roomId, roomName, now).1)
  {
  }

  /** A room just created can be joined, and fetching it shows an empty log. */
  lemma CreateThenJoinAndGet(table: map<RoomId, Room>, roomId: string, roomName: Option<string>, now: Time)
    requires |roomId| >= MIN_ROOM_ID_LENGTH && roomId !in table && KeyedById(table)
    ensures var (_, after) := CreateRoom(table, Some(roomId), roomName, now);
      && JoinRoom(after, Some(roomId)) == Response(200, Success(roomId))
      && GetRoom(after, roomId) == Response(200, RoomInfo(roomId, now, now, 0))
  {
  }

  /** Ids are unique: creating the same id a second time is refused and
      leaves the table as the first create left it. */
  lemma CreateTwiceRefused(table: map<RoomId, Room>, roomId: Option<string>, name1: Option<string>,
                           name2: Option<string>, t1: Time, t2: Time)
    ensures var (_, after) := CreateRoom(table, roomId, name1, t1);
      CreateRoom(after, roomId, name2, t2).0.status == 400 && CreateRoom(after, roomId, name2, t2).1 == after
  {
  }

  /** The join route and the fetch route agree on whether a room exists
      whenever the id is present. */
  lemma JoinAgreesWithGet(table: map<RoomId, Room>, roomId: string)
    ensures JoinRoom(table, Some(roomId)).status == GetRoom(table, roomId).status
  {
  }
}
