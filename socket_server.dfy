/** The per-room session and stroke-batching engine of
    server/socketServer.js: the membership registry `roomUsers`, the
    per-room point buffers `strokeBuffers` with their debounce timers, and
    the persisted rooms they write to, kept here as an in-memory map.

    Emits are returned as a log of (audience, message) pairs. A timer is an
    explicit pending entry holding the colour and width its closure
    captured; `FireTimer` is the event of that timer going off. `now` and
    the outcome of each store write are parameters. */
module SocketServer {
  import opened Basics
  import opened RoomModel

  /** Points at which a buffer is flushed without waiting for its timer. */
  const FLUSH_THRESHOLD: nat := 10
  /** Rooms idle for longer than this are deleted from the store. */
  const RETENTION_MS: nat := 24 * 60 * 60 * 1000

  /** Who receives an emit. */
  datatype Audience =
    | ToRoom(roomId: RoomId)                            // io.to(roomId): every member, sender included
    | ToRoomExcept(roomId: RoomId, sender: SocketId)    // socket.to(roomId): every member but the sender
    | ToSocket(socketId: SocketId)                      // socket.emit: the sender only
    | ToAllExcept(sender: SocketId)                     // socket.broadcast: every connection but the sender

  datatype Message =
    | UpdateUserCount(count: nat)
    | DrawMoveRelay(segment: Segment)
    | ClearCanvasRelay
    | CursorUpdate(userId: SocketId, x: int, y: int)
    | DrawingHistory(commands: seq<DrawingCommand>)
    | UserDisconnected(userId: SocketId)

  datatype Emit = Emit(to: Audience, message: Message)

  /** `strokeBuffers[roomId]`: the points not yet flushed and the pending
      flush timer, given by the style its closure captured. A timer that has
      fired or been cleared is `None`. */
  datatype StrokeBuffer = StrokeBuffer(buffer: seq<Point>, timer: Option<Style>)

  /** Between events a buffer holds an even number of points, fewer than
      the threshold, and is never without a pending timer while it holds
      any: no point is left without a flush that will take it. */
  predicate SettledBuffer(b: StrokeBuffer)
  {
    |b.buffer| < FLUSH_THRESHOLD && |b.buffer| % 2 == 0 && (b.buffer != [] ==> b.timer.Some?)
  }

  /** Whether a room's set survives the removal of `socketId`: it did not
      hold the socket, or it held others too. */
  predicate KeepsRoom(members: set<SocketId>, socketId: SocketId)
  {
    socketId !in members || members != {socketId}
  }

  /** `strokeBuffers[roomId]?.buffer`, with a missing entry read as empty. */
  function BufferOf(buffers: map<RoomId, StrokeBuffer>, roomId: RoomId): seq<Point>
  {
    if roomId in buffers then buffers[roomId].buffer else []
  }

  /** The pending timer of a room, if any. */
  function TimerOf(buffers: map<RoomId, StrokeBuffer>, roomId: RoomId): Option<Style>
  {
    if roomId in buffers then buffers[roomId].timer else None
  }

  /** The rooms whose `lastActivity` is not older than the cutoff
      `now - 24h`; the others are what `deleteMany` removes. */
  function RetainedRooms(rooms: map<RoomId, Room>, now: Time): (r: map<RoomId, Room>)
    ensures forall id :: id in r <==> id in rooms && !(rooms[id].lastActivity < now - RETENTION_MS)
    ensures forall id :: id in r ==> r[id] == rooms[id]
  {
    map id | id in rooms && rooms[id].lastActivity >= now - RETENTION_MS :: rooms[id]
  }

  /** One room's buffer against its history: the buffer is settled, every
      flush produced a stroke of at least two points, and the points of the
      flushed strokes followed by the buffer are exactly the points that
      arrived, in arrival order. */
  ghost predicate BufferAccounts(b: StrokeBuffer, submitted: seq<Point>, batches: seq<DrawingCommand>)
  {
    && SettledBuffer(b)
    && StrokePoints(batches) + b.buffer == submitted
    && forall k :: 0 <= k < |batches| ==> batches[k].Stroke? && |batches[k].points| >= 2
  }

  /** `BufferAccounts` for the room `r`, which has a buffer. */
  ghost predicate RoomAccounted(buffers: map<RoomId, StrokeBuffer>, submitted: map<RoomId, seq<Point>>,
                                batches: map<RoomId, seq<DrawingCommand>>, r: RoomId)
  {
    r in buffers && r in submitted && r in batches && BufferAccounts(buffers[r], submitted[r], batches[r])
  }

  /** `BufferAccounts` for every room that has a buffer. */
  ghost predicate AllAccounted(buffers: map<RoomId, StrokeBuffer>, submitted: map<RoomId, seq<Point>>,
                               batches: map<RoomId, seq<DrawingCommand>>)
  {
    && buffers.Keys == submitted.Keys
    && buffers.Keys == batches.Keys
    && forall r {:trigger RoomAccounted(buffers, submitted, batches, r)} ::
         r in buffers ==> RoomAccounted(buffers, submitted, batches, r)
  }

  /** Replacing one room's entries by accounted ones keeps every room accounted. */
  lemma AllAccountedUpdate(buffers: map<RoomId, StrokeBuffer>, submitted: map<RoomId, seq<Point>>,
                           batches: map<RoomId, seq<DrawingCommand>>, roomId: RoomId,
                           b: StrokeBuffer, s: seq<Point>, t: seq<DrawingCommand>)
    requires AllAccounted(buffers, submitted, batches)
    requires BufferAccounts(b, s, t)
    ensures AllAccounted(buffers[roomId := b], submitted[roomId := s], batches[roomId := t])
  {
    var buffers', submitted', batches' := buffers[roomId := b], submitted[roomId := s], batches[roomId := t];
    forall r | r in buffers'
      ensures RoomAccounted(buffers', submitted', batches', r)
    {
      if r != roomId {
        assert RoomAccounted(buffers, submitted, batches, r);
      }
    }
  }

  /** What a `draw-move` does to one settled, accounted buffer: the two
      endpoints join the arrivals; at the threshold (which is then exactly
      ten points) they leave the buffer as one stroke, otherwise they stay
      and a timer with the segment's style is pending. Either way the
      buffer stays accounted. */
  lemma {:induction false} DrawMoveAccounts(b: StrokeBuffer, submitted: seq<Point>, batches: seq<DrawingCommand>,
                                            seg: Segment, now: Time)
    requires BufferAccounts(b, submitted, batches)
    ensures var points := b.buffer + [seg.start, seg.end];
      if |points| >= FLUSH_THRESHOLD then
        && |points| == FLUSH_THRESHOLD
        && BufferAccounts(StrokeBuffer([], b.timer), submitted + [seg.start, seg.end],
                          batches + [Stroke(points, seg.style, now)])
      else
        BufferAccounts(StrokeBuffer(points, Some(seg.style)), submitted + [seg.start, seg.end], batches)
  {
    var points := b.buffer + [seg.start, seg.end];
    assert |points| == |b.buffer| + 2;
    assert StrokePoints(batches) + points == submitted + [seg.start, seg.end];
    if |points| >= FLUSH_THRESHOLD {
      assert |b.buffer| == 8;
      var cmd := Stroke(points, seg.style, now);
      StrokePointsAppend(batches, [cmd]);
      assert StrokePoints([cmd]) == points;
    }
  }

  /** What the timer going off does to one settled, accounted buffer: an
      empty buffer stays empty; otherwise it holds at least two points,
      which leave it as one stroke in the style the timer captured. No
      timer is pending afterwards, and the buffer stays accounted. */
  lemma {:induction false} FireAccounts(b: StrokeBuffer, submitted: seq<Point>, batches: seq<DrawingCommand>, now: Time)
    requires BufferAccounts(b, submitted, batches)
    requires b.timer.Some?
    ensures b.buffer != [] ==> |b.buffer| >= 2
    ensures b.buffer == [] ==> BufferAccounts(StrokeBuffer([], None), submitted, batches)
    ensures b.buffer != [] ==>
      BufferAccounts(StrokeBuffer([], None), submitted, batches + [Stroke(b.buffer, b.timer.value, now)])
  {
    var cmd := Stroke(b.buffer, b.timer.value, now);
    StrokePointsAppend(batches, [cmd]);
    assert StrokePoints([cmd]) == b.buffer;
  }

  /** The count emits of a disconnect sweep over the rooms of `orig` outside
      `todo`: each is addressed to a distinct such room that held the socket
      and others besides and carries that room's size without the socket,
      and every such room gets one. */
  ghost predicate SweepEmits(orig: map<RoomId, set<SocketId>>, todo: set<RoomId>, emits: seq<Emit>, socketId: SocketId)
  {
    && (forall k :: 0 <= k < |emits| ==>
          && emits[k].to.ToRoom?
          && emits[k].to.roomId in orig
          && emits[k].to.roomId !in todo
          && socketId in orig[emits[k].to.roomId]
          && orig[emits[k].to.roomId] != {socketId}
          && emits[k].message == UpdateUserCount(|orig[emits[k].to.roomId] - {socketId}|))
    && (forall r :: r in orig && r !in todo && socketId in orig[r] && orig[r] != {socketId} ==>
          Emit(ToRoom(r), UpdateUserCount(|orig[r] - {socketId}|)) in emits)
    && (forall j, k :: 0 <= j < k < |emits| ==> emits[j].to != emits[k].to)
  }

  /** The state of the `for (const roomId in roomUsers)` loop of a
      disconnect: the rooms still in `todo` are as they were, the others
      have been swept, and `emits` holds the counts sent for the swept ones. */
  ghost predicate Swept(orig: map<RoomId, set<SocketId>>, cur: map<RoomId, set<SocketId>>, todo: set<RoomId>,
                        emits: seq<Emit>, socketId: SocketId)
  {
    && todo <= orig.Keys
    && (forall r :: r in cur <==> r in orig && (r in todo || KeepsRoom(orig[r], socketId)))
    && (forall r :: r in cur ==> cur[r] == if r in todo then orig[r] else orig[r] - {socketId})
    && (forall r :: r in cur ==> cur[r] != {})
    && SweepEmits(orig, todo, emits, socketId)
  }

  lemma SweepStart(orig: map<RoomId, set<SocketId>>, socketId: SocketId)
    requires forall r :: r in orig ==> orig[r] != {}
    ensures Swept(orig, orig, orig.Keys, [], socketId)
  {
  }

  lemma SweepSkip(orig: map<RoomId, set<SocketId>>, cur: map<RoomId, set<SocketId>>, todo: set<RoomId>,
                  emits: seq<Emit>, socketId: SocketId, r: RoomId)
    requires Swept(orig, cur, todo, emits, socketId)
    requires r in todo && r in cur && socketId !in cur[r]
    ensures Swept(orig, cur, todo - {r}, emits, socketId)
  {
  }

  lemma SweepDelete(orig: map<RoomId, set<SocketId>>, cur: map<RoomId, set<SocketId>>, todo: set<RoomId>,
                    emits: seq<Emit>, socketId: SocketId, r: RoomId)
    requires Swept(orig, cur, todo, emits, socketId)
    requires r in todo && r in cur && socketId in cur[r] && cur[r] - {socketId} == {}
    ensures Swept(orig, cur - {r}, todo - {r}, emits, socketId)
  {
    assert orig[r] == {socketId};
  }

  lemma SweepKeep(orig: map<RoomId, set<SocketId>>, cur: map<RoomId, set<SocketId>>, todo: set<RoomId>,
                  emits: seq<Emit>, socketId: SocketId, r: RoomId)
    requires Swept(orig, cur, todo, emits, socketId)
    requires r in todo && r in cur && socketId in cur[r] && cur[r] - {socketId} != {}
    ensures Swept(orig, cur[r := cur[r] - {socketId}], todo - {r},
                  emits + [Emit(ToRoom(r), UpdateUserCount(|cur[r] - {socketId}|))], socketId)
  {
    var todo', cur' := todo - {r}, cur[r := cur[r] - {socketId}];
    assert cur[r] == orig[r];
    forall q | q in orig
      ensures q in cur' <==> q in todo' || KeepsRoom(orig[q], socketId)
      ensures q in cur' ==> cur'[q] == if q in todo' then orig[q] else orig[q] - {socketId}
    {
    }
    SweepEmitsStep(orig, todo, emits, socketId, r);
  }

  /** Sweeping one more room that keeps other members adds its count emit. */
  lemma SweepEmitsStep(orig: map<RoomId, set<SocketId>>, todo: set<RoomId>, emits: seq<Emit>,
                       socketId: SocketId, r: RoomId)
    requires SweepEmits(orig, todo, emits, socketId)
    requires r in todo && r in orig && socketId in orig[r] && orig[r] != {socketId}
    ensures SweepEmits(orig, todo - {r}, emits + [Emit(ToRoom(r), UpdateUserCount(|orig[r] - {socketId}|))], socketId)
  {
    var e := Emit(ToRoom(r), UpdateUserCount(|orig[r] - {socketId}|));
    var emits', todo' := emits + [e], todo - {r};
    forall k | 0 <= k < |emits'|
      ensures && emits'[k].to.ToRoom?
              && emits'[k].to.roomId in orig
              && emits'[k].to.roomId !in todo'
              && socketId in orig[emits'[k].to.roomId]
              && orig[emits'[k].to.roomId] != {socketId}
              && emits'[k].message == UpdateUserCount(|orig[emits'[k].to.roomId] - {socketId}|)
    {
      if k == |emits| {
        assert emits'[k] == e;
      } else {
        assert emits'[k] == emits[k];
      }
    }
    forall q | q in orig && q !in todo' && socketId in orig[q] && orig[q] != {socketId}
      ensures Emit(ToRoom(q), UpdateUserCount(|orig[q] - {socketId}|)) in emits'
    {
      if q == r {
        assert emits'[|emits|] == e;
      } else {
        assert Emit(ToRoom(q), UpdateUserCount(|orig[q] - {socketId}|)) in emits;
      }
    }
    forall j, k | 0 <= j < k < |emits'|
      ensures emits'[j].to != emits'[k].to
    {
      if k == |emits| {
        assert emits'[j] == emits[j];
        assert emits[j].to.roomId !in todo;
      } else {
        assert emits'[j] == emits[j] && emits'[k] == emits[k];
      }
    }
  }

  lemma SweepDone(orig: map<RoomId, set<SocketId>>, cur: map<RoomId, set<SocketId>>, emits: seq<Emit>,
                  socketId: SocketId)
    requires Swept(orig, cur, {}, emits, socketId)
    ensures forall r :: r in cur <==> r in orig && KeepsRoom(orig[r], socketId)
    ensures forall r :: r in cur ==> cur[r] == orig[r] - {socketId}
    ensures forall r :: r in cur ==> cur[r] != {}
    ensures forall k :: 0 <= k < |emits| ==>
      && emits[k].to.ToRoom?
      && emits[k].to.roomId in cur
      && socketId in orig[emits[k].to.roomId]
      && emits[k].message == UpdateUserCount(|cur[emits[k].to.roomId]|)
    ensures forall r :: r in cur && socketId in orig[r] ==> Emit(ToRoom(r), UpdateUserCount(|cur[r]|)) in emits
    ensures forall j, k :: 0 <= j < k < |emits| ==> emits[j].to != emits[k].to
  {
  }

  class Server {
    /** roomId -> ids of the sockets that joined it. */
    var roomUsers: map<RoomId, set<SocketId>>
    /** roomId -> unflushed points and pending timer. */
    var strokeBuffers: map<RoomId, StrokeBuffer>
    /** The persistent store, by roomId. */
    var rooms: map<RoomId, Room>

    /** Every point ever pushed into a room's buffer, in arrival order. */
    ghost var submitted: map<RoomId, seq<Point>>
    /** Every stroke command a flush of the room produced, in order,
        whether or not the store accepted it. */
    ghost var batches: map<RoomId, seq<DrawingCommand>>

    ghost predicate Valid()
      reads this
    {
      && (forall r :: r in roomUsers ==> roomUsers[r] != {})
      && AllAccounted(strokeBuffers, submitted, batches)
    }

    /** A server over an existing store, with no members and no buffers. */
    constructor (store: map<RoomId, Room>)
      ensures Valid()
      ensures roomUsers == map[] && strokeBuffers == map[] && rooms == store
    {
      roomUsers := map[];
      strokeBuffers := map[];
      rooms := store;
      submitted := map[];
      batches := map[];
    }

    /** `join-room`: add the socket to the room's set (creating the set when
        absent), send the new size to the whole room, and send the room's
        log to the joiner alone when the store lookup goes through, the room
        exists and its log is not empty. A failed lookup still leaves the
        count sent. */
    method Join(roomId: RoomId, socketId: SocketId, readSucceeds: bool) returns (emits: seq<Emit>)
      requires Valid()
      modifies this`roomUsers
      ensures Valid()
      ensures var before := if roomId in old(roomUsers) then old(roomUsers)[roomId] else {};
        roomUsers == old(roomUsers)[roomId := before + {socketId}]
      ensures socketId in roomUsers[roomId]
      ensures var before := if roomId in old(roomUsers) then old(roomUsers)[roomId] else {};
        |roomUsers[roomId]| == if socketId in before then |before| else |before| + 1
      ensures |emits| >= 1 && emits[0] == Emit(ToRoom(roomId), UpdateUserCount(|roomUsers[roomId]|))
      ensures if readSucceeds && roomId in rooms && |rooms[roomId].drawingData| > 0
              then emits == [emits[0], Emit(ToSocket(socketId), DrawingHistory(rooms[roomId].drawingData))]
              else emits == [emits[0]]
    {
      if roomId !in roomUsers {
        roomUsers := roomUsers[roomId := {}];
      }
      ghost var before := roomUsers[roomId];
      roomUsers := roomUsers[roomId := roomUsers[roomId] + {socketId}];
      UpdateTwice(old(roomUsers), roomId, {}, before + {socketId});
      if socketId in before {
        assert before + {socketId} == before;
      } else {
        assert |before + {socketId}| == |before| + 1;
      }
      emits := [Emit(ToRoom(roomId), UpdateUserCount(|roomUsers[roomId]|))];
      if readSucceeds && roomId in rooms && |rooms[roomId].drawingData| > 0 {
        emits := emits + [Emit(ToSocket(socketId), DrawingHistory(rooms[roomId].drawingData))];
      }
    }

    /** `leave-room`: nothing when the room is not registered; otherwise drop
        the socket, delete the room's entry when its set is empty, and send
        the new size to the room when it is not. */
    method Leave(roomId: RoomId, socketId: SocketId) returns (emits: seq<Emit>)
      requires Valid()
      modifies this`roomUsers
      ensures Valid()
      ensures roomId !in old(roomUsers) ==> roomUsers == old(roomUsers) && emits == []
      ensures roomId in old(roomUsers) ==>
        var rest := old(roomUsers)[roomId] - {socketId};
        if rest == {} then roomUsers == old(roomUsers) - {roomId} && emits == []
        else roomUsers == old(roomUsers)[roomId := rest]
             && emits == [Emit(ToRoom(roomId), UpdateUserCount(|rest|))]
    {
      emits := [];
      if roomId in roomUsers {
        var rest := roomUsers[roomId] - {socketId};
        roomUsers := roomUsers[roomId := rest];
        if |roomUsers[roomId]| == 0 {
          roomUsers := roomUsers - {roomId};
        } else {
          emits := [Emit(ToRoom(roomId), UpdateUserCount(|roomUsers[roomId]|))];
        }
      }
    }

    /** `flushStrokeBuffer(roomId, color, strokeWidth)`: nothing when the
        room has no buffer or fewer than two buffered points; otherwise one
        stroke command carrying exactly the buffered points, in order, is
        pushed to the store (which may not take it), and the buffer is
        emptied either way. The timer is left as it is. */
    method FlushStrokeBuffer(roomId: RoomId, style: Style, now: Time, writeSucceeds: bool)
      requires strokeBuffers.Keys == batches.Keys
      modifies this`strokeBuffers, this`rooms, this`batches
      ensures strokeBuffers.Keys == batches.Keys
      ensures var points := BufferOf(old(strokeBuffers), roomId);
        if roomId !in old(strokeBuffers) || |points| < 2 then
          strokeBuffers == old(strokeBuffers) && rooms == old(rooms) && batches == old(batches)
        else
          var cmd := Stroke(points, style, now);
          && strokeBuffers == old(strokeBuffers)[roomId := old(strokeBuffers)[roomId].(buffer := [])]
          && rooms == PushCommand(old(rooms), roomId, cmd, now, writeSucceeds)
          && batches == old(batches)[roomId := old(batches)[roomId] + [cmd]]
    {
      if roomId !in strokeBuffers || |strokeBuffers[roomId].buffer| < 2 {
        return;
      }
      var points := strokeBuffers[roomId].buffer;
      var cmd := Stroke(points, style, now);
      rooms := PushCommand(rooms, roomId, cmd, now, writeSucceeds);
      batches := batches[roomId := batches[roomId] + [cmd]];
      strokeBuffers := strokeBuffers[roomId := strokeBuffers[roomId].(buffer := [])];
    }

    /** `draw-move`: relay the segment to the rest of the room at once, push
        both endpoints onto the room's buffer (creating it when absent), then
        flush at once when the buffer has reached the threshold, or else
        replace any pending timer by one that captures this segment's style.
        A threshold flush always carries exactly ten points. */
    method DrawMove(roomId: RoomId, sender: SocketId, seg: Segment, now: Time, writeSucceeds: bool)
      returns (emits: seq<Emit>)
      requires Valid()
      modifies this`strokeBuffers, this`rooms, this`submitted, this`batches
      ensures Valid()
      ensures emits == [Emit(ToRoomExcept(roomId, sender), DrawMoveRelay(seg))]
      ensures submitted == old(submitted)[roomId := (if roomId in old(submitted) then old(submitted)[roomId] else [])
                                                  + [seg.start, seg.end]]
      ensures var points := BufferOf(old(strokeBuffers), roomId) + [seg.start, seg.end];
        var prior := if roomId in old(batches) then old(batches)[roomId] else [];
        if |points| >= FLUSH_THRESHOLD then
          && |points| == FLUSH_THRESHOLD
          && strokeBuffers == old(strokeBuffers)[roomId := StrokeBuffer([], TimerOf(old(strokeBuffers), roomId))]
          && rooms == PushCommand(old(rooms), roomId, Stroke(points, seg.style, now), now, writeSucceeds)
          && batches == old(batches)[roomId := prior + [Stroke(points, seg.style, now)]]
        else
          && strokeBuffers == old(strokeBuffers)[roomId := StrokeBuffer(points, Some(seg.style))]
          && rooms == old(rooms)
          && batches == old(batches)[roomId := prior]
    {
      emits := [Emit(ToRoomExcept(roomId, sender), DrawMoveRelay(seg))];
      OpenBuffer(roomId);
      PushSegment(roomId, seg, now, writeSucceeds);
      if roomId !in old(strokeBuffers) {
        UpdateTwice(old(strokeBuffers), roomId, StrokeBuffer([], None), strokeBuffers[roomId]);
        UpdateTwice(old(submitted), roomId, [], submitted[roomId]);
        UpdateTwice(old(batches), roomId, [], batches[roomId]);
      } else {
        UpdateSelf(old(batches), roomId);
      }
    }

    /** The buffer entry `draw-move` creates when the room has none. */
    method OpenBuffer(roomId: RoomId)
      requires Valid()
      modifies this`strokeBuffers, this`submitted, this`batches
      ensures Valid()
      ensures roomId in old(strokeBuffers) ==>
        strokeBuffers == old(strokeBuffers) && submitted == old(submitted) && batches == old(batches)
      ensures roomId !in old(strokeBuffers) ==>
        && strokeBuffers == old(strokeBuffers)[roomId := StrokeBuffer([], None)]
        && submitted == old(submitted)[roomId := []]
        && batches == old(batches)[roomId := []]
    {
      if roomId !in strokeBuffers {
        strokeBuffers := strokeBuffers[roomId := StrokeBuffer([], None)];
        submitted := submitted[roomId := []];
        batches := batches[roomId := []];
        AllAccountedUpdate(old(strokeBuffers), old(submitted), old(batches), roomId, StrokeBuffer([], None), [], []);
      }
    }

    /** The part of `draw-move` after the buffer exists: push, then flush
        or re-arm. */
    method PushSegment(roomId: RoomId, seg: Segment, now: Time, writeSucceeds: bool)
      requires Valid() && roomId in strokeBuffers
      modifies this`strokeBuffers, this`rooms, this`submitted, this`batches
      ensures Valid()
      ensures submitted == old(submitted)[roomId := old(submitted)[roomId] + [seg.start, seg.end]]
      ensures var points := old(strokeBuffers)[roomId].buffer + [seg.start, seg.end];
        if |points| >= FLUSH_THRESHOLD then
          && |points| == FLUSH_THRESHOLD
          && strokeBuffers == old(strokeBuffers)[roomId := StrokeBuffer([], old(strokeBuffers)[roomId].timer)]
          && rooms == PushCommand(old(rooms), roomId, Stroke(points, seg.style, now), now, writeSucceeds)
          && batches == old(batches)[roomId := old(batches)[roomId] + [Stroke(points, seg.style, now)]]
        else
          && strokeBuffers == old(strokeBuffers)[roomId := StrokeBuffer(points, Some(seg.style))]
          && rooms == old(rooms)
          && batches == old(batches)
    {
      ghost var buffers0, submitted0, batches0 := strokeBuffers, submitted, batches;
      assert RoomAccounted(buffers0, submitted0, batches0, roomId);
      DrawMoveAccounts(buffers0[roomId], submitted0[roomId], batches0[roomId], seg, now);
      var entry := strokeBuffers[roomId];
      entry := entry.(buffer := entry.buffer + [seg.start]);
      entry := entry.(buffer := entry.buffer + [seg.end]);
      ghost var points := buffers0[roomId].buffer + [seg.start, seg.end];
      assert entry.buffer == points;
      strokeBuffers := strokeBuffers[roomId := entry];
      submitted := submitted[roomId := submitted[roomId] + [seg.start, seg.end]];
      if |strokeBuffers[roomId].buffer| >= FLUSH_THRESHOLD {
        FlushStrokeBuffer(roomId, seg.style, now, writeSucceeds);
      } else {
        strokeBuffers := strokeBuffers[roomId := strokeBuffers[roomId].(timer := Some(seg.style))];
      }
      AllAccountedUpdate(buffers0, submitted0, batches0, roomId,
                         strokeBuffers[roomId], submitted[roomId], batches[roomId]);
      UpdateTwice(buffers0, roomId, entry, strokeBuffers[roomId]);
      UpdateSelf(batches0, roomId);
    }

    /** The room's debounce timer goes off (1000 ms after it was last
        armed): it is no longer pending, and the buffer is flushed with the style the timer captured when it was
        armed. */
    method FireTimer(roomId: RoomId, now: Time, writeSucceeds: bool)
      requires Valid()
      requires roomId in strokeBuffers && strokeBuffers[roomId].timer.Some?
      modifies this`strokeBuffers, this`rooms, this`batches
      ensures Valid()
      ensures strokeBuffers == old(strokeBuffers)[roomId := StrokeBuffer([], None)]
      ensures var points := old(strokeBuffers)[roomId].buffer;
        rooms == if points == [] then old(rooms)
                 else PushCommand(old(rooms), roomId, Stroke(points, old(strokeBuffers)[roomId].timer.value, now),
                                  now, writeSucceeds)
      ensures var points := old(strokeBuffers)[roomId].buffer;
        batches == if points == [] then old(batches)
                   else old(batches)[roomId := old(batches)[roomId] + [Stroke(points, old(strokeBuffers)[roomId].timer.value, now)]]
    {
      var style := strokeBuffers[roomId].timer.value;
      ghost var buffers0, batches0 := strokeBuffers, batches;
      assert RoomAccounted(buffers0, submitted, batches0, roomId);
      FireAccounts(buffers0[roomId], submitted[roomId], batches0[roomId], now);
      strokeBuffers := strokeBuffers[roomId := strokeBuffers[roomId].(timer := None)];
      FlushStrokeBuffer(roomId, style, now, writeSucceeds);
      AllAccountedUpdate(buffers0, submitted, batches0, roomId,
                         strokeBuffers[roomId], submitted[roomId], batches[roomId]);
      UpdateSelf(submitted, roomId);
      UpdateTwice(buffers0, roomId, buffers0[roomId].(timer := None), strokeBuffers[roomId]);
      UpdateSelf(batches0, roomId);
    }

    /** `clear-canvas`: tell the whole room, then push one clear command with
        no data to the store. Membership and the stroke buffer, with any
        points it holds, are left as they are. */
    method ClearCanvas(roomId: RoomId, now: Time, writeSucceeds: bool) returns (emits: seq<Emit>)
      requires Valid()
      modifies this`rooms
      ensures Valid()
      ensures emits == [Emit(ToRoom(roomId), ClearCanvasRelay)]
      ensures rooms == PushCommand(old(rooms), roomId, Clear(now), now, writeSucceeds)
    {
      emits := [Emit(ToRoom(roomId), ClearCanvasRelay)];
      rooms := PushCommand(rooms, roomId, Clear(now), now, writeSucceeds);
    }

    /** `cursor-move`: relay the position, tagged with the sender's id, to
        every other member of the room; nothing is stored. */
    method CursorMove(roomId: RoomId, sender: SocketId, x: int, y: int) returns (emits: seq<Emit>)
      ensures |emits| == 1 && emits[0].to == ToRoomExcept(roomId, sender)
      ensures emits[0].message == CursorUpdate(sender, x, y)
    {
      emits := [Emit(ToRoomExcept(roomId, sender), CursorUpdate(sender, x, y))];
    }

    /** `disconnect`: remove the socket from every room set that holds it,
        deleting each room that becomes empty and sending the new size to
        each that does not; rooms without the socket are untouched. Then
        announce the disconnection to every other connection. The count
        emits come one per affected room, in the order the rooms are
        visited. */
    method Disconnect(socketId: SocketId) returns (emits: seq<Emit>)
      requires Valid()
      modifies this`roomUsers
      ensures Valid()
      ensures forall r :: r in roomUsers <==> r in old(roomUsers) && KeepsRoom(old(roomUsers)[r], socketId)
      ensures forall r :: r in roomUsers ==> roomUsers[r] == old(roomUsers)[r] - {socketId}
      ensures |emits| >= 1 && emits[|emits| - 1] == Emit(ToAllExcept(socketId), UserDisconnected(socketId))
      ensures forall k :: 0 <= k < |emits| - 1 ==>
        && emits[k].to.ToRoom?
        && emits[k].to.roomId in roomUsers
        && socketId in old(roomUsers)[emits[k].to.roomId]
        && emits[k].message == UpdateUserCount(|roomUsers[emits[k].to.roomId]|)
      ensures forall r :: r in roomUsers && socketId in old(roomUsers)[r] ==>
        Emit(ToRoom(r), UpdateUserCount(|roomUsers[r]|)) in emits[..|emits| - 1]
      ensures forall j, k :: 0 <= j < k < |emits| - 1 ==> emits[j].to != emits[k].to
    {
      var todo := roomUsers.Keys;
      emits := [];
      SweepStart(roomUsers, socketId);
      while todo != {}
        invariant Swept(old(roomUsers), roomUsers, todo, emits, socketId)
        decreases todo
      {
        var r :| r in todo;
        if socketId in roomUsers[r] {
          var rest := roomUsers[r] - {socketId};
          if rest == {} {
            SweepDelete(old(roomUsers), roomUsers, todo, emits, socketId, r);
            roomUsers := roomUsers - {r};
          } else {
            SweepKeep(old(roomUsers), roomUsers, todo, emits, socketId, r);
            roomUsers := roomUsers[r := rest];
            emits := emits + [Emit(ToRoom(r), UpdateUserCount(|rest|))];
          }
        } else {
          SweepSkip(old(roomUsers), roomUsers, todo, emits, socketId, r);
        }
        todo := todo - {r};
      }
      SweepDone(old(roomUsers), roomUsers, emits, socketId);
      ghost var counts := emits;
      emits := emits + [Emit(ToAllExcept(socketId), UserDisconnected(socketId))];
      assert emits[..|emits| - 1] == counts;
    }

    /** The hourly sweep: delete from the store every room whose
        `lastActivity` is strictly before `now - 24h`. Membership and
        buffers are not touched. */
    method ReapIdleRooms(now: Time)
      requires Valid()
      modifies this`rooms
      ensures Valid()
      ensures rooms == RetainedRooms(old(rooms), now)
    {
      rooms := RetainedRooms(rooms, now);
    }
  }
}
