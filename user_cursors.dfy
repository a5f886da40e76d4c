/** The cursor overlay of client/src/components/UserCursors.js: positions
    of the other users' cursors, the colour each user is given the first
    time they are seen, and the per-user inactivity timers.

    Colours are handed out first-free from a fixed palette of seven, with
    `'gray'` once all seven are in use. The timers are the set of users
    whose 10-second expiry is pending; its going off is an explicit event. */
module UserCursors {
  import opened Basics
  import opened RoomModel

  const COLORS: seq<Color> := ["red", "blue", "green", "orange", "purple", "teal", "magenta"]
  /** The colour of every user seen while the whole palette is in use. */
  const GRAY: Color := "gray"

  /** The position in the palette, from `i` on, of the first colour not in
      `used`; `|COLORS|` when there is none. */
  function FirstFreeIndex(used: set<Color>, i: nat): (r: nat)
    requires i <= |COLORS|
    ensures i <= r <= |COLORS|
    ensures r < |COLORS| ==> COLORS[r] !in used
    ensures forall j :: i <= j < r ==> COLORS[j] in used
    decreases |COLORS| - i
  {
    if i == |COLORS| then i
    else if COLORS[i] !in used then i
    else FirstFreeIndex(used, i + 1)
  }

  /** `COLORS.find((c) => !used.includes(c)) || 'gray'`: the palette's first
      colour that is free, gray exactly when every palette colour is used. */
  function FirstFreeColor(used: set<Color>): (c: Color)
    ensures c == GRAY <==> forall j :: 0 <= j < |COLORS| ==> COLORS[j] in used
    ensures c != GRAY ==> c in COLORS && c !in used
    ensures c != GRAY ==> forall j :: 0 <= j < |COLORS| && COLORS[j] !in used && COLORS[j] != c ==> c in COLORS[..j]
  {
    var i := FirstFreeIndex(used, 0);
    if i < |COLORS| then
      assert COLORS[i] != GRAY;
      COLORS[i]
    else GRAY
  }

  /** Every colour handed out is from the palette or gray. */
  ghost predicate PaletteColors(userColors: map<SocketId, Color>)
  {
    forall u :: u in userColors ==> userColors[u] in COLORS || userColors[u] == GRAY
  }

  /** No two users share a palette colour; only gray is shared. */
  ghost predicate DistinctColors(userColors: map<SocketId, Color>)
  {
    forall u, v :: u in userColors && v in userColors && u != v && userColors[u] != GRAY ==>
      userColors[u] != userColors[v]
  }

  /** The `setUserColors` updater of `cursor-update`: a user without a
      colour gets the first free one; a user who has one keeps it; nobody
      else is touched. */
  function ColorsAfterUpdate(userColors: map<SocketId, Color>, userId: SocketId): (r: map<SocketId, Color>)
    ensures r.Keys == userColors.Keys + {userId}
    ensures forall u :: u in userColors ==> r[u] == userColors[u]
    ensures userId !in userColors ==> r[userId] == FirstFreeColor(userColors.Values)
  {
    if userId in userColors then userColors
    else MapPut(userColors, userId, FirstFreeColor(userColors.Values))
  }

  /** Handing out a colour keeps colours from the palette and distinct. */
  lemma UpdateKeepsColorsDistinct(userColors: map<SocketId, Color>, userId: SocketId)
    requires PaletteColors(userColors) && DistinctColors(userColors)
    ensures PaletteColors(ColorsAfterUpdate(userColors, userId))
    ensures DistinctColors(ColorsAfterUpdate(userColors, userId))
  {
    var r := ColorsAfterUpdate(userColors, userId);
    if userId !in userColors {
      var c := FirstFreeColor(userColors.Values);
      forall u, v | u in r && v in r && u != v && r[u] != GRAY
        ensures r[u] != r[v]
      {
        if u == userId {
          assert v in userColors && userColors[v] in userColors.Values;
        } else if v == userId {
          assert userColors[u] in userColors.Values;
        }
      }
    }
  }

  /** A user leaving frees their palette colour: nobody else holds it. */
  lemma DisconnectFreesColor(userColors: map<SocketId, Color>, userId: SocketId)
    requires DistinctColors(userColors)
    requires userId in userColors && userColors[userId] != GRAY
    ensures userColors[userId] !in MapDelete(userColors, userId).Values
  {
  }

  /** After a palette-coloured user leaves, the next newcomer gets a palette
      colour, not gray. */
  lemma FreedColorIsReused(userColors: map<SocketId, Color>, userId: SocketId, newcomer: SocketId)
    requires DistinctColors(userColors)
    requires userId in userColors && userColors[userId] != GRAY && userColors[userId] in COLORS
    requires newcomer !in MapDelete(userColors, userId)
    ensures ColorsAfterUpdate(MapDelete(userColors, userId), newcomer)[newcomer] != GRAY
  {
    var rest := MapDelete(userColors, userId);
    DisconnectFreesColor(userColors, userId);
    var j :| 0 <= j < |COLORS| && COLORS[j] == userColors[userId];
    assert COLORS[j] !in rest.Values;
  }

  /** The state of the overlay: `cursors` and `userColors` and the users
      whose inactivity timer (`timeoutRef.current[userId]`) is pending. */
  class CursorLayer {
    var cursors: map<SocketId, Point>
    var userColors: map<SocketId, Color>
    var timeouts: set<SocketId>

    ghost predicate Valid()
      reads this
    {
      PaletteColors(userColors) && DistinctColors(userColors) && cursors.Keys <= timeouts
    }

    constructor ()
      ensures Valid()
      ensures cursors == map[] && userColors == map[] && timeouts == {}
    {
      cursors := map[];
      userColors := map[];
      timeouts := {};
    }

    /** `cursor-update`: the position is set or overwritten, a colour handed
        out if the user has none, and the user's timer is replaced by a
        fresh one. */
    method OnCursorUpdate(userId: SocketId, p: Point)
      requires Valid()
      modifies this
      ensures Valid()
      ensures cursors == MapPut(old(cursors), userId, p)
      ensures userColors == ColorsAfterUpdate(old(userColors), userId)
      ensures timeouts == old(timeouts) + {userId}
    {
      UpdateKeepsColorsDistinct(userColors, userId);
      cursors := MapPut(cursors, userId, p);
      userColors := ColorsAfterUpdate(userColors, userId);
      timeouts := timeouts + {userId};
    }

    /** The user's timer going off: the cursor is hidden, the colour kept. */
    method OnCursorExpired(userId: SocketId)
      requires Valid() && userId in timeouts
      modifies this`cursors, this`timeouts
      ensures Valid()
      ensures cursors == MapDelete(old(cursors), userId)
      ensures timeouts == old(timeouts) - {userId}
    {
      cursors := MapDelete(cursors, userId);
      timeouts := timeouts - {userId};
    }

    /** `user-disconnected`: the user's cursor and colour both go; their
        timer stays pending. */
    method OnUserDisconnected(userId: SocketId)
      requires Valid()
      modifies this`cursors, this`userColors
      ensures Valid()
      ensures cursors == MapDelete(old(cursors), userId)
      ensures userColors == MapDelete(old(userColors), userId)
    {
      cursors := MapDelete(cursors, userId);
      userColors := MapDelete(userColors, userId);
    }
  }
}
