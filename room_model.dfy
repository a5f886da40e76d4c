/** The persisted room record and its drawing log, shaped after the Mongoose
    schema in server/models/Room.js, and the one store update the server
    uses on it (`findOneAndUpdate` with `$push` and `$set`). */
module RoomModel {

  type RoomId = string
  type SocketId = string
  type Color = string
  /** Milliseconds since the epoch, as JavaScript's `Date.now()`. */
  type Time = int

  /** Coordinates are JavaScript numbers; no arithmetic is done on them in
      this core, so integers stand in for them. */
  datatype Point = Point(x: int, y: int)

  /** The pen: `color` and `strokeWidth` of a segment or stroke. */
  datatype Style = Style(color: Color, strokeWidth: int)

  /** One `draw-move` payload: a segment from (startX, startY) to (x, y). */
  datatype Segment = Segment(start: Point, end: Point, style: Style)

  /** One entry of a room's `drawingData` log: `type: 'stroke'` with its
      points, colour and width, or `type: 'clear'` with empty data. A stroke
      whose `points` field is missing is a stroke with no points. */
  datatype DrawingCommand =
    | Stroke(points: seq<Point>, style: Style, timestamp: Time)
    | Clear(timestamp: Time)

  /** A persisted room. `roomName` is what the create route passes to the
      model; the schema itself has no such field. */
  datatype Room = Room(roomId: RoomId, roomName: string, createdAt: Time,
                       lastActivity: Time, drawingData: seq<DrawingCommand>)

  /** The points of a command: a stroke's points, nothing for a clear. */
  function PointsOf(c: DrawingCommand): seq<Point>
  {
    if c.Stroke? then c.points else []
  }

  /** The points of all strokes of a log, concatenated in log order. */
  function StrokePoints(log: seq<DrawingCommand>): seq<Point>
  {
    if log == [] then [] else PointsOf(log[0]) + StrokePoints(log[1..])
  }

  /** Concatenating the points of two logs is the points of the joined log:
      batching a stream into consecutive strokes loses and reorders nothing. */
  lemma {:induction false} StrokePointsAppend(a: seq<DrawingCommand>, b: seq<DrawingCommand>)
    ensures StrokePoints(a + b) == StrokePoints(a) + StrokePoints(b)
  {
    if a == [] {
      assert a + b == b;
    } else {
      assert (a + b)[0] == a[0];
      assert (a + b)[1..] == a[1..] + b;
      StrokePointsAppend(a[1..], b);
    }
  }

  /** `Room.findOneAndUpdate({roomId}, {$push: {drawingData: cmd}, $set:
      {lastActivity: now}})`: when the write goes through and a room with
      that id exists, the command is appended to its log and its activity
      time set; when no room matches, or the write fails, nothing changes. */
  function PushCommand(rooms: map<RoomId, Room>, roomId: RoomId, cmd: DrawingCommand,
                       now: Time, writeSucceeds: bool): (r: map<RoomId, Room>)
    ensures r.Keys == rooms.Keys
    ensures forall id :: id in rooms && id != roomId ==> r[id] == rooms[id]
    ensures roomId in rooms && writeSucceeds ==>
      r[roomId] == rooms[roomId].(drawingData := rooms[roomId].drawingData + [cmd], lastActivity := now)
    ensures !(roomId in rooms && writeSucceeds) ==> r == rooms
  {
    if writeSucceeds && roomId in rooms then
      rooms[roomId := rooms[roomId].(drawingData := rooms[roomId].drawingData + [cmd], lastActivity := now)]
    else rooms
  }
}
