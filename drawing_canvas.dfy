/** The drawing client of client/src/components/DrawingCanvas.js: the
    canvas it draws on, the replay of a room's `drawing-history`, the
    mouse/touch drawing state machine, the remote-cursor overlay and the
    colour a cursor is given from its user id.

    The 2D context is abstracted as the polylines stroked since the last
    `clearRect`, the current path and the pen. Socket emits are returned as
    a log; the throttle in front of `cursor-move` and the expiry timers are
    explicit parameters and state. */
module DrawingCanvas {
  import opened Basics
  import opened RoomModel

  /** A polyline stroked on the canvas: its points in drawing order and the
      pen it was stroked with. */
  datatype Polyline = Polyline(points: seq<Point>, style: Style)

  /** A snapshot of the context: the visible polylines, the current path
      and the pen (`strokeStyle`, `lineWidth`). */
  datatype CanvasState = CanvasState(strokes: seq<Polyline>, path: seq<Point>, pen: Style)

  /** The 2D context driven by the handlers. Only the calls the core makes
      are modelled; every `moveTo` follows a `beginPath`, so the path is a
      single subpath. */
  class Canvas {
    var strokes: seq<Polyline>
    var path: seq<Point>
    var pen: Style

    function State(): CanvasState
      reads this
    {
      CanvasState(strokes, path, pen)
    }

    /** A blank canvas with the pen set from the initial props. */
    constructor (pen: Style)
      ensures State() == CanvasState([], [], pen)
    {
      strokes := [];
      path := [];
      this.pen := pen;
    }

    /** `ctx.strokeStyle = color; ctx.lineWidth = strokeWidth`. */
    method SetPen(style: Style)
      modifies this`pen
      ensures pen == style
    {
      pen := style;
    }

    /** `ctx.beginPath()`: the path is emptied. */
    method BeginPath()
      modifies this`path
      ensures path == []
    {
      path := [];
    }

    /** `ctx.moveTo(x, y)`: the subpath starts at `p`. */
    method MoveTo(p: Point)
      modifies this`path
      ensures path == [p]
    {
      path := [p];
    }

    /** `ctx.lineTo(x, y)`: the subpath is extended to `p`. */
    method LineTo(p: Point)
      modifies this`path
      ensures path == old(path) + [p]
    {
      path := path + [p];
    }

    /** `ctx.stroke()`: the current path becomes visible in the current pen. */
    method Stroke()
      modifies this`strokes
      ensures strokes == old(strokes) + [Polyline(path, pen)]
    {
      strokes := strokes + [Polyline(path, pen)];
    }

    /** `ctx.clearRect(0, 0, width, height)`: nothing stays visible. */
    method ClearRect()
      modifies this`strokes
      ensures strokes == []
    {
      strokes := [];
    }
  }

  // ---------------------------------------------------------------------
  // Replay of `drawing-history`

  /** A stored command that replay draws: a stroke of at least two points. */
  predicate Drawable(c: DrawingCommand)
  {
    c.Stroke? && |c.points| >= 2
  }

  /** The effect of one stored command on the context. */
  function ReplayCommand(s: CanvasState, c: DrawingCommand): CanvasState
  {
    match c
    case Stroke(points, style, _) =>
      if |points| >= 2 then CanvasState(s.strokes + [Polyline(points, style)], points, style) else s
    case Clear(_) => s.(strokes := [])
  }

  /** The context after replaying `cmds` in list order, one command after
      the other, starting from `s`. */
  function Replay(s: CanvasState, cmds: seq<DrawingCommand>): CanvasState
    decreases |cmds|
  {
    if cmds == [] then s else ReplayCommand(Replay(s, cmds[..|cmds| - 1]), cmds[|cmds| - 1])
  }

  /** The polylines of the drawable strokes of `cmds`, in log order. */
  function ValidStrokes(cmds: seq<DrawingCommand>): seq<Polyline>
    decreases |cmds|
  {
    if cmds == [] then []
    else
      var last := cmds[|cmds| - 1];
      ValidStrokes(cmds[..|cmds| - 1]) + (if Drawable(last) then [Polyline(last.points, last.style)] else [])
  }

  /** The commands after the last `clear` (all of them when there is none). */
  function AfterLastClear(cmds: seq<DrawingCommand>): seq<DrawingCommand>
    decreases |cmds|
  {
    if cmds == [] then []
    else if cmds[|cmds| - 1].Clear? then []
    else AfterLastClear(cmds[..|cmds| - 1]) + [cmds[|cmds| - 1]]
  }

  predicate HasClear(cmds: seq<DrawingCommand>)
  {
    exists i :: 0 <= i < |cmds| && cmds[i].Clear?
  }

  /** The `drawing-history` handler: every command in list order; a stroke
      of fewer than two points is skipped, a stroke sets the pen and draws
      the polyline from `points[0]` through every later point, a clear
      wipes the canvas. */
  method ReplayHistory(canvas: Canvas, commands: seq<DrawingCommand>)
    modifies canvas
    ensures canvas.State() == Replay(old(canvas.State()), commands)
  {
    ghost var start := canvas.State();
    var k := 0;
    while k < |commands|
      invariant 0 <= k <= |commands|
      invariant canvas.State() == Replay(start, commands[..k])
    {
      var cmd := commands[k];
      ghost var before := canvas.State();
      match cmd {
        case Stroke(points, style, _) =>
          if |points| >= 2 {
            canvas.SetPen(style);
            canvas.BeginPath();
            canvas.MoveTo(points[0]);
            var i := 1;
            while i < |points|
              invariant 1 <= i <= |points|
              invariant canvas.path == points[..i]
              invariant canvas.strokes == before.strokes && canvas.pen == style
            {
              canvas.LineTo(points[i]);
              i := i + 1;
            }
            assert points[..|points|] == points;
            canvas.Stroke();
          }
        case Clear(_) =>
          canvas.ClearRect();
      }
      assert canvas.State() == ReplayCommand(before, cmd);
      assert commands[..k + 1][..k] == commands[..k];
      k := k + 1;
    }
    assert commands[..|commands|] == commands;
  }

  /** `AfterLastClear` is the longest suffix of the log that holds no
      clear: a suffix, clear-free, and either the whole log or preceded
      by a clear. */
  lemma {:induction false} AfterLastClearIsLastSegment(cmds: seq<DrawingCommand>)
    ensures |AfterLastClear(cmds)| <= |cmds|
    ensures AfterLastClear(cmds) == cmds[|cmds| - |AfterLastClear(cmds)|..]
    ensures forall i :: 0 <= i < |AfterLastClear(cmds)| ==> !AfterLastClear(cmds)[i].Clear?
    ensures |AfterLastClear(cmds)| < |cmds| ==> cmds[|cmds| - |AfterLastClear(cmds)| - 1].Clear?
    ensures HasClear(cmds) <==> |AfterLastClear(cmds)| < |cmds|
    decreases |cmds|
  {
    if cmds != [] {
      var init := cmds[..|cmds| - 1];
      AfterLastClearIsLastSegment(init);
      if !cmds[|cmds| - 1].Clear? {
        var a := AfterLastClear(init);
        assert AfterLastClear(cmds) == a + [cmds[|cmds| - 1]];
        assert cmds[|cmds| - |a| - 1..] == init[|init| - |a|..] + [cmds[|cmds| - 1]];
        HasClearLast(cmds);
        if |a| < |init| {
          assert cmds[|cmds| - |a| - 2] == init[|init| - |a| - 1];
        }
      } else {
        assert cmds[|cmds| - 1].Clear?;
      }
    }
  }

  /** What a replay leaves visible: the valid strokes after the last clear,
      in log order, on top of what was there before only if the log holds
      no clear. */
  lemma {:induction false} ReplayVisible(s: CanvasState, cmds: seq<DrawingCommand>)
    ensures Replay(s, cmds).strokes ==
      (if HasClear(cmds) then [] else s.strokes) + ValidStrokes(AfterLastClear(cmds))
    decreases |cmds|
  {
    if cmds != [] {
      var init := cmds[..|cmds| - 1];
      var last := cmds[|cmds| - 1];
      ReplayVisible(s, init);
      HasClearLast(cmds);
      if !last.Clear? {
        var a := AfterLastClear(init);
        var drawn := if Drawable(last) then [Polyline(last.points, last.style)] else [];
        assert (a + [last])[..|a|] == a;
        assert ValidStrokes(a + [last]) == ValidStrokes(a) + drawn;
        assert Replay(s, cmds).strokes == Replay(s, init).strokes + drawn;
        var before := if HasClear(init) then [] else s.strokes;
        assert (before + ValidStrokes(a)) + drawn == before + (ValidStrokes(a) + drawn);
      }
    }
  }

  /** A log holds a clear exactly when its front does or its last command is one. */
  lemma HasClearLast(cmds: seq<DrawingCommand>)
    requires cmds != []
    ensures HasClear(cmds) <==> HasClear(cmds[..|cmds| - 1]) || cmds[|cmds| - 1].Clear?
  {
    var init := cmds[..|cmds| - 1];
    if HasClear(cmds) && !cmds[|cmds| - 1].Clear? {
      var i :| 0 <= i < |cmds| && cmds[i].Clear?;
      assert init[i].Clear?;
    }
    if HasClear(init) {
      var i :| 0 <= i < |init| && init[i].Clear?;
      assert cmds[i].Clear?;
    }
  }

  /** Replaying onto a blank canvas a log that holds only strokes of at
      least two points, as the server writes them, shows every stroke, one
      polyline per command, in log order. */
  lemma {:induction false} ReplayShowsEveryBatch(pen: Style, cmds: seq<DrawingCommand>)
    requires forall i :: 0 <= i < |cmds| ==> cmds[i].Stroke? && |cmds[i].points| >= 2
    ensures |Replay(CanvasState([], [], pen), cmds).strokes| == |cmds|
    ensures forall i :: 0 <= i < |cmds| ==>
      Replay(CanvasState([], [], pen), cmds).strokes[i] == Polyline(cmds[i].points, cmds[i].style)
  {
    assert !HasClear(cmds);
    AfterLastClearIsLastSegment(cmds);
    assert AfterLastClear(cmds) == cmds;
    ReplayVisible(CanvasState([], [], pen), cmds);
    ValidStrokesOfDrawable(cmds);
  }

  /** On a log of drawable strokes, `ValidStrokes` keeps every command. */
  lemma {:induction false} ValidStrokesOfDrawable(cmds: seq<DrawingCommand>)
    requires forall i :: 0 <= i < |cmds| ==> cmds[i].Stroke? && |cmds[i].points| >= 2
    ensures |ValidStrokes(cmds)| == |cmds|
    ensures forall i :: 0 <= i < |cmds| ==> ValidStrokes(cmds)[i] == Polyline(cmds[i].points, cmds[i].style)
    decreases |cmds|
  {
    if cmds != [] {
      var init := cmds[..|cmds| - 1];
      assert forall i :: 0 <= i < |init| ==> init[i] == cmds[i];
      ValidStrokesOfDrawable(init);
    }
  }

  // ---------------------------------------------------------------------
  // Mouse and touch drawing

  /** What the drawing client emits on its socket. */
  datatype ClientEmit =
    | DrawStart(at: Point, roomId: RoomId)
    | DrawMoveEmit(roomId: RoomId, segment: Segment)
    | DrawEnd(roomId: RoomId)
    | CursorMoveEmit(at: Point, roomId: RoomId)

  /** The `isDrawing` and `lastPos` refs. `lastPos` is `None` where the
      source holds `{ x: null, y: null }`. The touch handlers are the mouse
      handlers applied to the touch point. */
  class PointerInput {
    var isDrawing: bool
    var lastPos: Option<Point>

    /** A gesture is in progress exactly when a last position is known. */
    predicate Valid()
      reads this
    {
      isDrawing == lastPos.Some?
    }

    constructor ()
      ensures Valid() && !isDrawing && lastPos == None
    {
      isDrawing := false;
      lastPos := None;
    }

    /** `handleMouseDown` / `handleTouchStart`: a gesture starts at `p`, the
        local path starts there and `draw-start` is emitted. */
    method PointerDown(canvas: Canvas, p: Point, roomId: RoomId) returns (emits: seq<ClientEmit>)
      modifies this, canvas`path
      ensures Valid()
      ensures isDrawing && lastPos == Some(p)
      ensures canvas.path == [p]
      ensures emits == [DrawStart(p, roomId)]
    {
      isDrawing := true;
      canvas.BeginPath();
      canvas.MoveTo(p);
      lastPos := Some(p);
      emits := [DrawStart(p, roomId)];
    }

    /** `handleMouseMove` / `handleTouchMove`. The cursor position goes to
        the throttle, which lets it through when `throttleOpen`. When a
        gesture is in progress the segment from the last position to `p` is
        stroked locally in the context's pen, emitted with the toolbar's
        `props` style, and `p` becomes the last position; otherwise nothing
        else happens. */
    method PointerMove(canvas: Canvas, p: Point, roomId: RoomId, props: Style, throttleOpen: bool)
      returns (emits: seq<ClientEmit>)
      requires Valid()
      modifies this`lastPos, canvas`path, canvas`strokes
      ensures Valid()
      ensures isDrawing == old(isDrawing)
      ensures var cursor := if throttleOpen then [CursorMoveEmit(p, roomId)] else [];
        if old(isDrawing) then
          && lastPos == Some(p)
          && canvas.path == [old(lastPos).value, p]
          && canvas.strokes == old(canvas.strokes) + [Polyline([old(lastPos).value, p], canvas.pen)]
          && emits == cursor + [DrawMoveEmit(roomId, Segment(old(lastPos).value, p, props))]
        else
          && lastPos == old(lastPos)
          && canvas.path == old(canvas.path) && canvas.strokes == old(canvas.strokes)
          && emits == cursor
    {
      emits := if throttleOpen then [CursorMoveEmit(p, roomId)] else [];
      if !isDrawing {
        return;
      }
      match lastPos {
        case None =>
          return;
        case Some(last) =>
          canvas.BeginPath();
          canvas.MoveTo(last);
          canvas.LineTo(p);
          canvas.Stroke();
          emits := emits + [DrawMoveEmit(roomId, Segment(last, p, props))];
          lastPos := Some(p);
      }
    }

    /** `handleMouseUp` (also on mouse leave) / `handleTouchEnd`:
        `draw-end` only if a gesture was in progress; the gesture is over
        either way. */
    method PointerUp(roomId: RoomId) returns (emits: seq<ClientEmit>)
      modifies this
      ensures Valid() && !isDrawing && lastPos == None
      ensures emits == if old(isDrawing) then [DrawEnd(roomId)] else []
    {
      emits := if isDrawing then [DrawEnd(roomId)] else [];
      isDrawing := false;
      lastPos := None;
    }
  }

  // ---------------------------------------------------------------------
  // Remote cursors

  /** The `cursors` state and the `timeoutsRef` handles: a user is in
      `timeouts` while an expiry timer for them is pending. */
  class CursorOverlay {
    var cursors: map<SocketId, Point>
    var timeouts: set<SocketId>

    /** Every shown cursor has a pending expiry, so none stays forever
        without updates. */
    predicate Valid()
      reads this
    {
      cursors.Keys <= timeouts
    }

    constructor ()
      ensures Valid() && cursors == map[] && timeouts == {}
    {
      cursors := map[];
      timeouts := {};
    }

    /** `cursor-update`: the user's position is set or overwritten, their
        pending expiry is replaced by a fresh one. */
    method OnCursorUpdate(userId: SocketId, p: Point)
      requires Valid()
      modifies this
      ensures Valid()
      ensures cursors == MapPut(old(cursors), userId, p)
      ensures timeouts == old(timeouts) + {userId}
    {
      cursors := MapPut(cursors, userId, p);
      timeouts := timeouts + {userId};
    }

    /** The user's expiry timer going off, 10 s after their last update:
        the cursor and the handle go. */
    method OnCursorExpired(userId: SocketId)
      requires Valid() && userId in timeouts
      modifies this
      ensures Valid()
      ensures cursors == MapDelete(old(cursors), userId)
      ensures timeouts == old(timeouts) - {userId}
    {
      cursors := MapDelete(cursors, userId);
      timeouts := timeouts - {userId};
    }

    /** `user-disconnected`: only that user's cursor goes; its expiry timer
        stays pending. */
    method OnUserDisconnected(userId: SocketId)
      requires Valid()
      modifies this`cursors
      ensures Valid()
      ensures cursors == MapDelete(old(cursors), userId)
    {
      cursors := MapDelete(cursors, userId);
    }
  }

  // ---------------------------------------------------------------------
  // Cursor colour from the user id

  const CURSOR_COLORS: seq<Color> := ["red", "blue", "green", "purple", "orange", "teal", "magenta"]

  const TWO_POW_31: int := 0x8000_0000
  const TWO_POW_32: int := 0x1_0000_0000
  /** Beyond this magnitude a JavaScript number no longer holds every integer. */
  const TWO_POW_53: int := 0x20_0000_0000_0000
  /** The largest code a `char` can have. */
  const MAX_CHAR_CODE: int := 0x10_FFFF

  /** ECMAScript's ToInt32 on an integer: the value modulo 2^32, read as a
      signed 32-bit integer. */
  function ToInt32(x: int): (r: int)
    ensures -TWO_POW_31 <= r < TWO_POW_31
    ensures (x - r) % TWO_POW_32 == 0
    ensures -TWO_POW_31 <= x < TWO_POW_31 ==> r == x
  {
    (x + TWO_POW_31) % TWO_POW_32 - TWO_POW_31
  }

  /** One round of the hash: `c + ((h << 5) - h)`, where `<<` works on the
      32-bit view of `h` and yields a 32-bit result, and the subtraction and
      addition are ordinary number arithmetic. */
  function HashStep(h: int, c: char): int
  {
    c as int + (ToInt32(ToInt32(h) * 32) - h)
  }

  /** The hash of a user id, folded over its characters left to right. */
  function Hash(s: string): int
    decreases |s|
  {
    if s == [] then 0 else HashStep(Hash(s[..|s| - 1]), s[|s| - 1])
  }

  function Abs(x: int): nat
  {
    if x < 0 then -x else x
  }

  /** `getColorFromId`: a palette entry chosen by the hash. */
  function ColorFromId(userId: string): (c: Color)
    ensures c in CURSOR_COLORS
  {
    CURSOR_COLORS[Abs(Hash(userId)) % |CURSOR_COLORS|]
  }

  /** The hash grows by at most one step bound per character. */
  lemma {:induction false} HashBound(s: string)
    ensures Abs(Hash(s)) <= |s| * (TWO_POW_31 + MAX_CHAR_CODE)
    decreases |s|
  {
    if s != [] {
      HashBound(s[..|s| - 1]);
      var h := Hash(s[..|s| - 1]);
      assert 0 <= s[|s| - 1] as int <= MAX_CHAR_CODE;
      assert -TWO_POW_31 <= ToInt32(ToInt32(h) * 32) < TWO_POW_31;
    }
  }

  /** For ids of up to 2^21 characters every intermediate hash is an
      integer JavaScript numbers hold exactly, so the model's unbounded
      arithmetic is the source's floating-point arithmetic. */
  lemma HashIsExact(s: string)
    requires |s| <= 0x20_0000
    ensures -TWO_POW_53 < Hash(s) < TWO_POW_53
  {
    HashBound(s);
    assert |s| * (TWO_POW_31 + MAX_CHAR_CODE) <= 0x20_0000 * (TWO_POW_31 + MAX_CHAR_CODE);
  }

  /** `getColorFromId`'s accumulator loop. */
  method GetColorFromId(userId: string) returns (color: Color)
    ensures color == ColorFromId(userId)
    ensures color in CURSOR_COLORS
  {
    var hash := 0;
    var i := 0;
    while i < |userId|
      invariant 0 <= i <= |userId|
      invariant hash == Hash(userId[..i])
    {
      assert userId[..i + 1][..i] == userId[..i];
      hash := userId[i] as int + (ToInt32(ToInt32(hash) * 32) - hash);
      i := i + 1;
    }
    assert userId[..|userId|] == userId;
    color := CURSOR_COLORS[Abs(hash) % |CURSOR_COLORS|];
  }
}
