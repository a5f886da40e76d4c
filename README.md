# Collaborative whiteboard: session, batching and client-state model

This project models the core of a real-time collaborative whiteboard. A
Node server keeps, per room, the set of connected socket ids and a buffer of
drawn points, which it writes to a MongoDB store as batched stroke commands.
The browser client replays a room's stored drawing log onto its canvas,
turns mouse and touch gestures into drawing events, and shows the other
users' cursors in colours derived from their ids. Three HTTP routes create,
join and describe rooms.

The Dafny modules follow the program's files:

- `basics.dfy` (`Basics`): an `Option` type, the two copy-on-write map
  updates the client's state updaters perform, and two map facts.
- `room_model.dfy` (`RoomModel`): the stored room and its log of stroke and
  clear commands (shaped after `server/models/Room.js`), and the store's
  push-and-touch update.
- `socket_server.dfy` (`SocketServer`): the socket handlers as a class
  `Server`, whose fields `roomUsers`, `strokeBuffers` and `rooms` are
  updated in place. Two ghost fields record every point a room received and
  every stroke a flush produced. The class invariant `Valid` states that the
  flushed strokes' points followed by the buffered points are exactly the
  received points, in order. It also states that a buffer is always below
  the threshold, even-sized, and has a pending timer while it is non-empty.
  Every method that can flush states in its `ensures` exactly which stroke
  the log of flushed strokes gains.
- `drawing_canvas.dfy` (`DrawingCanvas`): the canvas context as a class,
  the history replay as a loop proved against a fold `Replay`, the
  `isDrawing`/`lastPos` state machine, the cursor overlay and
  `getColorFromId`.
- `user_cursors.dfy` (`UserCursors`): first-free colour assignment and the
  distinct-colour invariant.
- `room_routes.dfy` (`RoomRoutes`): the create, join and fetch routes as
  functions over an in-memory room table.

What is a parameter instead of being modelled:

- Time: `now` is passed in.
- The database: a store write that may fail is a `writeSucceeds` flag, and
  the history lookup of `join-room`, which may fail, is a `readSucceeds`
  flag.
- Timers: a pending timer is state, and its going off is a method
  (`FireTimer`, `OnCursorExpired`).
- The cursor throttle: whether the throttle lets a cursor position through
  is a `throttleOpen` flag.
- Sockets: emits are returned as a log of (audience, message) pairs.

`clear-canvas` (server/socketServer.js:96-110) does not touch the stroke
buffer, so points buffered before a clear are still flushed after it as a
stroke.

## Model

| member | source | states |
|---|---|---|
| RoomModel.PushCommand | server/socketServer.js:77-88 | the `$push`/`$set` store update: when the room exists and the write goes through, the command is appended to that room's log and `lastActivity` becomes `now`; every other room, and a missing room or a failed write, leaves the store unchanged |
| RoomModel.StrokePointsAppend | server/socketServer.js:76-93 | the points of two logs, concatenated, are the points of the joined log, so cutting a point stream into consecutive strokes neither loses nor reorders points |
| SocketServer.RetainedRooms | server/socketServer.js:9-11 | a room is kept exactly when its `lastActivity` is not strictly before `now - 24h`; kept rooms are unchanged |
| SocketServer.DrawMoveAccounts | server/socketServer.js:55-69 | one `draw-move` on an accounted buffer: the two endpoints join the received points; when the buffer reaches 10 it holds exactly 10 points, which leave as one stroke; otherwise they stay buffered with a timer that captures the segment's style; the buffer stays accounted either way |
| SocketServer.FireAccounts | server/socketServer.js:72-93 | a timer going off on an accounted buffer: a non-empty buffer holds at least 2 points, and those leave as one stroke in the captured style; no timer is left pending, and the buffer stays accounted |
| SocketServer.SweepKeep | server/socketServer.js:117-124 | one room of the disconnect loop that still has other members afterwards: the socket leaves it, and exactly one count emit carrying the new size is added for it |
| SocketServer.SweepEmitsStep | server/socketServer.js:122-123 | the count emits of the sweep stay one per visited room that still has members, each with that room's new size, all to distinct rooms |
| SocketServer.SweepSkip | server/socketServer.js:118 | a visited room that does not hold the socket is left as it is and gets no emit |
| SocketServer.SweepDelete | server/socketServer.js:119-121 | a visited room whose only member was the socket is deleted and gets no emit |
| SocketServer.SweepDone | server/socketServer.js:116-127 | at the end of the loop the registry and the emits are exactly what the disconnect promises |
| SocketServer.Server.constructor | server/socketServer.js:4-5 | no members and no buffers, over an existing store |
| SocketServer.Server.Join | server/socketServer.js:23-40 | the socket is added to the room's set, which is created if absent; the count sent to the room is the set's size, so a re-join does not change it; the room's log goes to the joiner alone, and only if the lookup goes through and the room is stored with a non-empty log; a failed lookup still sends the count |
| SocketServer.Server.Leave | server/socketServer.js:42-49 | an unknown room is a no-op; otherwise the socket is removed, the entry is deleted exactly when the set becomes empty, and a count is sent only when it is not empty |
| SocketServer.Server.DrawMove | server/socketServer.js:51-70 | the segment is relayed to the rest of the room; both endpoints are appended, in order, to that room's buffer only; at 10 points the buffer is flushed at once and its timer kept; below 10 the timer is replaced by one that captures this segment's style; the log of flushed strokes gains exactly the flushed stroke, and nothing when there is no flush; the accounting invariant is kept |
| SocketServer.Server.OpenBuffer | server/socketServer.js:55-57 | a room without a buffer gets an empty one with no timer, and empty received-points and flushed-strokes logs; a room with one is left as it is |
| SocketServer.Server.PushSegment | server/socketServer.js:59-69 | on an existing buffer: both endpoints are appended in order; at 10 points exactly one stroke with those 10 points is pushed and recorded and the buffer emptied with its timer kept; below 10 the points stay and the timer captures this segment's style, with nothing recorded |
| SocketServer.Server.FlushStrokeBuffer | server/socketServer.js:72-94 | a no-op without a buffer or with fewer than 2 points; otherwise exactly one stroke with exactly the buffered points is pushed to the store, and the buffer is emptied even when the write fails |
| SocketServer.Server.FireTimer | server/socketServer.js:66-68 | the pending timer is gone and the buffer is empty; a non-empty buffer has been pushed, and recorded in the log of flushed strokes, as one stroke in the captured style; an empty buffer records nothing |
| SocketServer.Server.ClearCanvas | server/socketServer.js:96-110 | the clear is sent to the whole room and one clear command is pushed to the store; membership and the stroke buffer are unchanged |
| SocketServer.Server.CursorMove | server/socketServer.js:112-114 | exactly one `cursor-update` carrying the sender's id and position, to the room without the sender |
| SocketServer.Server.Disconnect | server/socketServer.js:116-128 | the socket leaves every set that held it; a room is deleted exactly when it held only the socket; rooms without it are unchanged; one count emit goes to each remaining room the socket was in, with its new size; then `user-disconnected` goes to everyone else |
| SocketServer.Server.ReapIdleRooms | server/socketServer.js:8-18 | the store becomes the retained rooms and nothing else changes |
| DrawingCanvas.ReplayHistory | client/src/components/DrawingCanvas.js:75-98 | replaying the history leaves the canvas exactly as the left-to-right fold `Replay` of the commands: strokes of fewer than 2 points are skipped, a stroke sets the pen and draws the polyline from `points[0]` through every later point, a clear wipes the canvas |
| DrawingCanvas.ReplayVisible | client/src/components/DrawingCanvas.js:79-96 | after replay the visible polylines are exactly the valid strokes after the last clear, in log order; the previous contents survive only if the log holds no clear |
| DrawingCanvas.AfterLastClearIsLastSegment | client/src/components/DrawingCanvas.js:94-95 | the commands replay keeps are the longest clear-free suffix of the log; the log holds a clear exactly when that suffix is shorter than the log |
| DrawingCanvas.ReplayShowsEveryBatch | client/src/components/DrawingCanvas.js:79-93 | a log of strokes of at least 2 points, which is what the server's flushes write, replays onto a blank canvas as one polyline per command, in order |
| DrawingCanvas.ValidStrokesOfDrawable | client/src/components/DrawingCanvas.js:80-82 | no stroke of at least 2 points is skipped |
| DrawingCanvas.PointerInput.constructor | client/src/components/DrawingCanvas.js:9-10 | no gesture in progress: `isDrawing` is false and `lastPos` holds no point, and the gesture invariant holds |
| DrawingCanvas.PointerInput.PointerDown | client/src/components/DrawingCanvas.js:142-151 | (with `handleTouchStart`, lines 201-209) a gesture starts: `isDrawing` holds, `lastPos` is the press point, the local path starts there and `draw-start` is emitted |
| DrawingCanvas.PointerInput.PointerMove | client/src/components/DrawingCanvas.js:153-182 | (with `handleTouchMove`, lines 211-240) the position goes to the cursor throttle; a `draw-move` from the old `lastPos` to the new point is emitted, and that segment stroked locally, only while drawing; `lastPos` then becomes the new point; otherwise nothing changes |
| DrawingCanvas.PointerInput.PointerUp | client/src/components/DrawingCanvas.js:184-190 | (with `handleTouchEnd`, lines 242-248) `draw-end` only if a gesture was in progress; `isDrawing` is false and `lastPos` null afterwards |
| DrawingCanvas.CursorOverlay.constructor | client/src/components/DrawingCanvas.js:13-14 | no cursors shown and no expiry pending |
| DrawingCanvas.CursorOverlay.OnCursorUpdate | client/src/components/DrawingCanvas.js:106-121 | only the user's entry is set or overwritten, and one fresh expiry is pending for them |
| DrawingCanvas.CursorOverlay.OnCursorExpired | client/src/components/DrawingCanvas.js:113-120 | the expiry removes the user's cursor and its timer handle only |
| DrawingCanvas.CursorOverlay.OnUserDisconnected | client/src/components/DrawingCanvas.js:123-129 | only the user's cursor is removed |
| Basics.MapPut | client/src/components/DrawingCanvas.js:107 | the spread update binds the key and leaves every other entry as it was |
| Basics.MapDelete | client/src/components/DrawingCanvas.js:124-128 | the delete-on-copy removes the key and leaves every other entry as it was |
| DrawingCanvas.ToInt32 | client/src/components/DrawingCanvas.js:296 | the 32-bit view `<<` takes of the hash: in range, congruent modulo 2^32, and the identity on 32-bit values |
| DrawingCanvas.ColorFromId | client/src/components/DrawingCanvas.js:292-299 | the colour is one of the 7 listed colours for every id |
| DrawingCanvas.GetColorFromId | client/src/components/DrawingCanvas.js:292-299 | the accumulator loop computes the hash fold `Hash`, and so returns `ColorFromId` of the id |
| DrawingCanvas.HashBound | client/src/components/DrawingCanvas.js:295-297 | each character changes the hash's magnitude by at most 2^31 plus the largest character code |
| DrawingCanvas.HashIsExact | client/src/components/DrawingCanvas.js:294-298 | for ids of up to 2^21 characters every intermediate hash is below 2^53, so floating-point numbers hold it exactly |
| UserCursors.FirstFreeIndex | client/src/components/UserCursors.js:16-17 | the search stops at the first palette position whose colour is free, and at the end when none is |
| UserCursors.FirstFreeColor | client/src/components/UserCursors.js:16-17 | the colour is `'gray'` exactly when all 7 palette colours are in use; otherwise it is a free palette colour, and every other free colour comes later in the palette |
| UserCursors.ColorsAfterUpdate | client/src/components/UserCursors.js:14-21 | a user seen for the first time gets the first free colour; a user with a colour keeps it; nobody else's colour changes |
| UserCursors.UpdateKeepsColorsDistinct | client/src/components/UserCursors.js:14-21 | handing out colours keeps them from the palette or gray, and keeps the non-gray ones pairwise distinct |
| UserCursors.DisconnectFreesColor | client/src/components/UserCursors.js:40-44 | once the user is removed, nobody holds their palette colour |
| UserCursors.FreedColorIsReused | client/src/components/UserCursors.js:40-44 | after a palette-coloured user leaves, the next newcomer gets a palette colour, not gray |
| UserCursors.CursorLayer.constructor | client/src/components/UserCursors.js:6-8 | no cursors, no colours handed out and no timers pending, so the distinct-colour invariant holds |
| UserCursors.CursorLayer.OnCursorUpdate | client/src/components/UserCursors.js:11-32 | the position is set or overwritten, a colour is handed out if the user has none, and the timer is replaced; the distinct-colour invariant is kept |
| UserCursors.CursorLayer.OnCursorExpired | client/src/components/UserCursors.js:25-31 | inactivity removes the user from `cursors` only; `userColors` is untouched |
| UserCursors.CursorLayer.OnUserDisconnected | client/src/components/UserCursors.js:34-45 | the user is removed from both `cursors` and `userColors`; nobody else changes |
| RoomRoutes.NameOrId | server/routes/roomRoutes.js:21 | a missing or empty name falls back to the room id |
| RoomRoutes.CreateRoom | server/routes/roomRoutes.js:5-31 | a missing id or one shorter than 6 gives 400 with the table unchanged; an existing id gives 400 with the table unchanged; otherwise exactly one new, empty room is added under the id and 201 is returned with it; 201 exactly in the last case |
| RoomRoutes.JoinRoom | server/routes/roomRoutes.js:33-52 | 400 exactly for an invalid id, 404 exactly for an unknown one, 200 with the id exactly for a stored room; the route returns no table, so it cannot change it |
| RoomRoutes.GetRoom | server/routes/roomRoutes.js:53-78 | 400 exactly for an id shorter than 6, 404 exactly for an unknown one; otherwise 200 with the room's times and `drawingCount` equal to the length of its log; the table is not changed |
| RoomRoutes.CreateKeepsKeyedById | server/routes/roomRoutes.js:19-24 | every room stays stored under its own id |
| RoomRoutes.CreateThenJoinAndGet | server/routes/roomRoutes.js:19-47 | a room just created can be joined, and fetching it shows an empty log |
| RoomRoutes.CreateTwiceRefused | server/routes/roomRoutes.js:13-17 | creating the same id twice is refused the second time and leaves the table as the first create left it |
| RoomRoutes.JoinAgreesWithGet | server/routes/roomRoutes.js:36-73 | for a present id, join and fetch answer with the same status |

## Left out

- Socket.io transport: room membership on the socket side and delivery are not modelled. Emits are a log whose audience names the room (everyone, or everyone but the sender), the sender alone, or every other connection.
- MongoDB I/O: the store is an in-memory map. The 500 error paths and the console logging of every handler and route are not modelled. A failed write is the `writeSucceeds` flag.
- SocketServer.Server.FlushStrokeBuffer: modelled as one atomic step. In the source the buffer is emptied only after the awaited write, so points pushed while the write is pending can be lost or flushed twice. That race is not captured.
- SocketServer.Server: `roomUsers` and `strokeBuffers` are plain objects in the source (server/socketServer.js:4-5). A room id that names an inherited property, such as `"constructor"`, `"toString"`, `"valueOf"` or `"__proto__"`, passes the truthiness tests at lines 27, 44 and 55 without getting an entry. The create route accepts such ids. For them, `join-room` throws at line 28 and sends neither count nor history, `leave-room` throws at line 45, and `draw-move` relays the segment and then throws at line 59. The model's maps treat every id alike, so those exceptions are not modelled.
- SocketServer.Server.ClearCanvas: modelled as one atomic step. The `$push` of the clear (server/socketServer.js:99-106) is a separate awaited write, and the store may apply it and a flush still in flight in either order. The model applies writes in call order.
- SocketServer.Server.Join: modelled as one atomic step. The store lookup for the history is awaited after the count emit, and any interleaving there is not captured.
- Real timers (`setInterval`, `setTimeout`, `clearTimeout`) are explicit state, and their going off is a method call. There is no clock: the 1 s flush delay, the 10 s cursor expiry and the hourly sweep period are mentioned only in doc comments.
- DrawingCanvas.PointerInput.PointerMove: lodash's `throttle` around the `cursor-move` emit is only the per-call `throttleOpen` flag. Its trailing call is not modelled. In the source the last position of a burst is still sent when the 16 ms window ends, while a closed flag drops that position.
- Canvas pixels, `lineCap`/`lineJoin`, canvas sizing, DOM coordinates and React rendering are not modelled. The context is the list of stroked polylines, the current path and the pen.
- The `if (!ctx) return` guard of the history handler: the model always has a context.
- `getTouchPos` (client/src/components/DrawingCanvas.js:192-199): touch points are taken as already computed, and the touch handlers are the mouse handlers applied to them.
- The live `draw-start`, `draw-move`, `draw-end` and `clear-canvas` handlers of the client (client/src/components/DrawingCanvas.js:57-73, 101-104) and the prop-driven pen and clear effects (client/src/components/DrawingCanvas.js:24-52) are not part of this model.
- Coordinates: JavaScript numbers are modelled as integers. The core does no arithmetic on them.
- DrawingCanvas.GetColorFromId: `charCodeAt` reads UTF-16 code units, and the model reads Dafny characters. The two agree on ids made of characters below U+10000 (socket ids are ASCII).
- DrawingCanvas.Hash: computed with unbounded integers. `HashIsExact` shows that this equals the source's floating-point arithmetic for ids of up to 2^21 characters; longer ids are not covered.
- SocketServer.Server.Disconnect: the `for…in` visiting order is not modelled. Rooms are visited in an arbitrary order, so only the set of count emits is stated, not their order.
- RoomModel.Room: the stored schema (server/models/Room.js) has no `roomName` field, so the store would drop the name the create route computes. The model keeps it.
- RoomRoutes.CreateRoom: `roomId` values that are present but not strings, and the length of an id in UTF-16 units, are not modelled. Ids are strings of characters.
- The uniqueness race between the create route's lookup and its save, which the store's unique index settles, is not modelled.
- RoomRoutes.CreateRoom: the schema's `createdAt` and `lastActivity` defaults are both taken as the same `now`.
- server/server.js, client/src/components/socket.js, Whiteboard.js, Toolbar.js, RoomJoin.js, ConnectionStatus.js and App.js have no logic in this core and are not part of this model.
