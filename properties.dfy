/**
 * What each handler's batch says, beyond the order the handler makes its
 * emits in: which lists and room lists it publishes, under which names, and
 * (when the room record agrees with the table) which sockets each emit
 * reaches.
 */
module HandlerProperties {
  import opened Users
  import opened Transport
  import opened Handlers
  import opened Membership

  // ---------------------------------------------------------------------------
  // 'enterRoom'

  /** Whatever the previous room, the batch is the leaving emits, each made
      under the room record left by `socket.leave`, then the four joining
      emits, each made under the room record left by `socket.join`. */
  lemma EnterRoomEndsJoining(before: seq<User>, joined: Joined, sid: SocketId, name: string, room: Room)
    ensures var prev := CurrentRoom(before, sid);
      var after := Activated(before, sid, name, room);
      var batch := EnterRoomBatch(before, after, sid, name, room);
      var at := EnterRoomSnapshots(joined, prev, sid, room);
      var entered := EnteredJoined(joined, prev, sid, room);
      && |batch| == |at| >= 4
      && batch[|batch| - 4..] == EnterRoomJoining(after, sid, name, room)
      && at[|at| - 4..] == [entered, entered, entered, entered]
      && batch[..|batch| - 4] == EnterRoomLeaving(before, after, sid, name)
      && (forall k :: 0 <= k < |at| - 4 ==> at[k] == LeftJoined(joined, prev, sid))
  {
    var prev := CurrentRoom(before, sid);
    var after := Activated(before, sid, name, room);
    var leaving := EnterRoomLeaving(before, after, sid, name);
    var joining := EnterRoomJoining(after, sid, name, room);
    var mid := LeftJoined(joined, prev, sid);
    var entered := EnteredJoined(joined, prev, sid, room);
    var leftAt: seq<Joined> := if InTruthyRoom(prev) then [mid, mid] else [];
    assert |leaving| == |leftAt|;
    assert (leaving + joining)[|leaving|..] == joining;
    assert (leftAt + [entered, entered, entered, entered])[|leftAt|..] == [entered, entered, entered, entered];
    assert (leaving + joining)[..|leaving|] == leaving;
  }

  /** From a truthy previous room: six emits, the left notice first and under
      the name just sent, then the previous room's list taken after the table
      rewrite (without the mover, unless the mover came back to that room). */
  lemma EnterRoomFromRoom(before: seq<User>, sid: SocketId, name: string, room: Room)
    requires InTruthyRoom(CurrentRoom(before, sid))
    ensures var p := CurrentRoom(before, sid).value;
      var after := Activated(before, sid, name, room);
      var batch := EnterRoomBatch(before, after, sid, name, room);
      && |batch| == 6
      && batch[0] == Emission(ToRoom(p), MessageEvent, AdminText(Left(name)))
      && batch[1] == Emission(ToRoom(p), UserListEvent,
           UserList(Without(UsersInRoom(before, p), sid) + (if p == room then [User(sid, name, room)] else [])))
      && batch[2..] == EnterRoomJoining(after, sid, name, room)
  {
    UsersInRoomActivated(before, sid, name, room, CurrentRoom(before, sid).value);
  }

  /** With no entry yet, or from the room "", there is no left cycle: only
      the four joining emits. */
  lemma EnterRoomFresh(before: seq<User>, sid: SocketId, name: string, room: Room)
    requires !InTruthyRoom(CurrentRoom(before, sid))
    ensures var after := Activated(before, sid, name, room);
      EnterRoomBatch(before, after, sid, name, room) == EnterRoomJoining(after, sid, name, room)
  {
  }

  /** The new room's list: the room's other entries in table order, then the
      mover's new record exactly once, at the end. */
  lemma EnterRoomNewRoomList(before: seq<User>, sid: SocketId, name: string, room: Room)
    ensures var list := Without(UsersInRoom(before, room), sid) + [User(sid, name, room)];
      && EnterRoomJoining(Activated(before, sid, name, room), sid, name, room)[2]
           == Emission(ToRoom(room), UserListEvent, UserList(list))
      && (forall i :: 0 <= i < |list| - 1 ==> list[i].id != sid)
  {
    UsersInRoomActivated(before, sid, name, room, room);
    var others := Without(UsersInRoom(before, room), sid);
    var list := others + [User(sid, name, room)];
    forall i | 0 <= i < |list| - 1 ensures list[i].id != sid {
      assert list[i] == others[i] && others[i] in others;
    }
  }

  /** The active rooms after 'enterRoom': a room is listed exactly when it is
      the new room or someone else sits in it, and the rooms listed without
      the mover keep their positions. */
  lemma EnterRoomActiveRooms(before: seq<User>, sid: SocketId, name: string, room: Room)
    ensures var rooms := AllActiveRooms(Activated(before, sid, name, room));
      && room in rooms
      && (forall x :: x in rooms <==> x == room || OthersInRoom(before, sid, x))
      && AllActiveRooms(Without(before, sid)) <= rooms
  {
    var me := User(sid, name, room);
    var after := Activated(before, sid, name, room);
    assert after == Without(before, sid) + [me];
    AllActiveRoomsPrefix(Without(before, sid), [me]);
    forall x ensures x in AllActiveRooms(after) <==> x == room || OthersInRoom(before, sid, x) {
      if x in AllActiveRooms(after) {
        var u :| u in after && u.room == x;
        ActivatedMembers(before, sid, name, room, u);
      }
      if OthersInRoom(before, sid, x) {
        var u :| u in before && u.id != sid && u.room == x;
        ActivatedMembers(before, sid, name, room, u);
      }
    }
  }

  /** Re-entering the room one is in still runs the whole left cycle: the
      room is told the mover left, then gets the same list twice, the mover's
      new record in it both times. */
  lemma SameRoomReentry(before: seq<User>, sid: SocketId, name: string, room: Room)
    requires CurrentRoom(before, sid) == Some(room) && Truthy(room)
    ensures var batch := EnterRoomBatch(before, Activated(before, sid, name, room), sid, name, room);
      && |batch| == 6
      && batch[0] == Emission(ToRoom(room), MessageEvent, AdminText(Left(name)))
      && batch[1] == batch[4]
      && batch[1].payload.UserList? && User(sid, name, room) in batch[1].payload.users
  {
    var after := Activated(before, sid, name, room);
    assert after[|after| - 1] in after;
  }

  /** Under the agreement, the left notice and the previous room's list
      reach the others of the previous room, never the mover. */
  lemma EnterRoomLeavingReaches(before: seq<User>, joined: Joined, sid: SocketId, name: string, room: Room)
    requires Agrees(before, joined) && InTruthyRoom(CurrentRoom(before, sid))
    ensures var prev := CurrentRoom(before, sid);
      var batch := EnterRoomBatch(before, Activated(before, sid, name, room), sid, name, room);
      var at := EnterRoomSnapshots(joined, prev, sid, room);
      && |batch| == |at| == 6
      && Audience(batch[0].target, at[0]) == IdsInRoom(before, prev.value) - {sid}
      && Audience(batch[1].target, at[1]) == IdsInRoom(before, prev.value) - {sid}
  {
    var prev := CurrentRoom(before, sid);
    var mid := LeftJoined(joined, prev, sid);
    assert EnterRoomSnapshots(joined, prev, sid, room)[..2] == [mid, mid];
    LeavingAudience(before, joined, sid);
  }

  // ---------------------------------------------------------------------------
  // 'disconnect'

  /** A socket that never entered a room leaves the table as it was and
      makes no emit. */
  lemma DisconnectUnknown(before: seq<User>, sid: SocketId)
    requires !HasId(before, sid)
    ensures Without(before, sid) == before
    ensures DisconnectBatch(before, Without(before, sid), sid) == []
  {
  }

  /** A socket with an entry, whatever its room (even ""), makes three emits:
      the left notice under the stored name, the room's list without the
      leaver, and the active rooms under 'room', where its room stays listed
      exactly when someone else is still in it. */
  lemma DisconnectKnown(before: seq<User>, sid: SocketId)
    requires HasId(before, sid)
    ensures var u := GetUser(before, sid).value;
      var after := Without(before, sid);
      var batch := DisconnectBatch(before, after, sid);
      && |batch| == 3
      && batch[0] == Emission(ToRoom(u.room), MessageEvent, AdminText(Left(u.name)))
      && batch[1] == Emission(ToRoom(u.room), UserListEvent, UserList(Without(UsersInRoom(before, u.room), sid)))
      && batch[2].target == ToAll && batch[2].event == RoomEvent && batch[2].payload.RoomList?
      && (u.room in batch[2].payload.rooms <==> OthersInRoom(before, sid, u.room))
  {
    UsersInRoomWithout(before, sid, GetUser(before, sid).value.room);
  }

  /** Which sockets the emits of 'disconnect' reach, when the room record
      agrees with the table: for a truthy room exactly those still in it, and
      the active rooms every socket still connected. */
  lemma DisconnectReaches(before: seq<User>, joined: Joined, sid: SocketId)
    requires Agrees(before, joined) && HasId(before, sid)
    ensures var u := GetUser(before, sid).value;
      var after := Without(before, sid);
      var batch := DisconnectBatch(before, after, sid);
      var at := DisconnectSnapshots(joined, before, sid);
      && |at| == |batch| == 3
      && (Truthy(u.room) ==>
            Audience(batch[0].target, at[0]) == IdsInRoom(after, u.room)
            && Audience(batch[1].target, at[1]) == IdsInRoom(after, u.room)
            && sid !in Audience(batch[0].target, at[0]))
      && Audience(batch[2].target, at[2]) == joined.Keys - {sid}
  {
    var u := GetUser(before, sid).value;
    var dropped := joined - {sid};
    assert DisconnectSnapshots(joined, before, sid) == [dropped, dropped, dropped];
    assert batch0: DisconnectBatch(before, Without(before, sid), sid)[0].target == ToRoom(u.room);
    assert DisconnectBatch(before, Without(before, sid), sid)[1].target == ToRoom(u.room);
    assert DisconnectBatch(before, Without(before, sid), sid)[2].target == ToAll;
    if Truthy(u.room) {
      DisconnectAudience(before, joined, sid);
    }
    assert dropped.Keys == joined.Keys - {sid};
  }

  // ---------------------------------------------------------------------------
  // 'message' and 'activity'

  /** A chat message is dropped exactly when the sender has no truthy room;
      otherwise it goes, once and as sent, to the whole room, the sender
      included. */
  lemma MessageReaches(users: seq<User>, joined: Joined, sid: SocketId, name: string, text: string)
    requires Agrees(users, joined)
    ensures var batch := MessageBatch(users, sid, name, text);
      && (batch == [] <==> !InTruthyRoom(CurrentRoom(users, sid)))
      && (batch != [] ==>
            |batch| == 1 && batch[0].event == MessageEvent && batch[0].payload == Text(name, text)
            && Audience(batch[0].target, joined) == IdsInRoom(users, CurrentRoom(users, sid).value)
            && sid in Audience(batch[0].target, joined))
  {
    if InTruthyRoom(CurrentRoom(users, sid)) {
      RoomAudience(users, joined, CurrentRoom(users, sid).value);
    }
  }

  /** A typing indicator is dropped exactly when the sender has no truthy
      room; otherwise it carries the name to everyone in the room but the
      sender. */
  lemma ActivityReaches(users: seq<User>, joined: Joined, sid: SocketId, name: string)
    requires Agrees(users, joined)
    ensures var batch := ActivityBatch(users, sid, name);
      && (batch == [] <==> !InTruthyRoom(CurrentRoom(users, sid)))
      && (batch != [] ==>
            |batch| == 1 && batch[0].event == ActivityEvent && batch[0].payload == ActivityName(name)
            && Audience(batch[0].target, joined) == IdsInRoom(users, CurrentRoom(users, sid).value) - {sid})
  {
    if InTruthyRoom(CurrentRoom(users, sid)) {
      RoomAudience(users, joined, CurrentRoom(users, sid).value);
    }
  }
}
