/**
 * The per-socket event handlers of the chat server: the welcome on
 * connection, 'enterRoom', 'disconnect', 'message' and 'activity'.  Each runs
 * to completion on the event loop and emits an ordered batch.  'enterRoom' and
 * 'disconnect' rewrite the user table once; 'message' and 'activity' only
 * read it, and the welcome does not look at it.  For each handler a pure
 * function gives the batch it emits (from the table before and after the
 * rewrite, where there is one), and the handler method is proved to append
 * exactly that batch to the outbox.
 */
module Handlers {
  import opened Users
  import opened Store
  import opened Transport

  /** `getUser(socket.id)?.room`: undefined when the socket has no entry,
      else the room of the socket's first entry. */
  function CurrentRoom(users: seq<User>, sid: SocketId): (r: Option<Room>)
    ensures r.Some? <==> HasId(users, sid)
    ensures r.Some? ==> User(sid, GetUser(users, sid).value.name, r.value) in users
    ensures forall i :: FirstWithId(users, sid, i) ==> r == Some(users[i].room)
  {
    GetUserFirstAll(users, sid);
    match GetUser(users, sid)
    case None => None
    case Some(u) => Some(u.room)
  }

  /** `if (room)` on `getUser(socket.id)?.room`: undefined and "" are both falsy. */
  predicate InTruthyRoom(r: Option<Room>) {
    r.Some? && Truthy(r.value)
  }

  // ---------------------------------------------------------------------------
  // 'enterRoom'

  /** The emits 'enterRoom' makes while the mover is out of its previous room:
      the left notice (made before the table rewrite, so with no list in it)
      and the previous room's list, taken from the rewritten table `after`. */
  function EnterRoomLeaving(before: seq<User>, after: seq<User>, sid: SocketId, name: string): seq<Emission> {
    var prev := CurrentRoom(before, sid);
    if InTruthyRoom(prev) then
      [ Emission(ToRoom(prev.value), MessageEvent, AdminText(Left(name))),
        Emission(ToRoom(prev.value), UserListEvent, UserList(UsersInRoom(after, prev.value))) ]
    else []
  }

  /** The emits 'enterRoom' makes once the mover has joined the new room. */
  function EnterRoomJoining(after: seq<User>, sid: SocketId, name: string, room: Room): seq<Emission> {
    [ Emission(ToSocket(sid), MessageEvent, AdminText(YouJoined(room))),
      Emission(ToRoomExcept(room, sid), MessageEvent, AdminText(Joined(name))),
      Emission(ToRoom(room), UserListEvent, UserList(UsersInRoom(after, room))),
      Emission(ToAll, RoomListEvent, RoomList(AllActiveRooms(after))) ]
  }

  function EnterRoomBatch(before: seq<User>, after: seq<User>, sid: SocketId, name: string, room: Room): seq<Emission> {
    EnterRoomLeaving(before, after, sid, name) + EnterRoomJoining(after, sid, name, room)
  }

  /** The room record once the mover has left its previous room (only when
      that room is truthy, as `if (prevRoom)` guards `socket.leave`). */
  function LeftJoined(joined: Joined, prev: Option<Room>, sid: SocketId): Joined {
    if InTruthyRoom(prev) then joined[sid := RoomsOf(joined, sid) - {prev.value}] else joined
  }

  /** The room record once 'enterRoom' is done. */
  function EnteredJoined(joined: Joined, prev: Option<Room>, sid: SocketId, room: Room): Joined {
    var mid := LeftJoined(joined, prev, sid);
    mid[sid := RoomsOf(mid, sid) + {room}]
  }

  /** The room record under which each emit of 'enterRoom' is made: the
      leaving emits after `socket.leave`, the joining ones after `socket.join`. */
  ghost function EnterRoomSnapshots(joined: Joined, prev: Option<Room>, sid: SocketId, room: Room): seq<Joined> {
    var mid := LeftJoined(joined, prev, sid);
    var entered := EnteredJoined(joined, prev, sid, room);
    (if InTruthyRoom(prev) then [mid, mid] else []) + [entered, entered, entered, entered]
  }

  method EnterRoom(st: UsersState, io: Hub, sid: SocketId, name: string, room: Room)
    modifies st, io
    ensures st.users == Activated(old(st.users), sid, name, room)
    ensures io.outbox == old(io.outbox) + EnterRoomBatch(old(st.users), st.users, sid, name, room)
    ensures io.joined == EnteredJoined(old(io.joined), CurrentRoom(old(st.users), sid), sid, room)
    ensures io.joinedAt == old(io.joinedAt) + EnterRoomSnapshots(old(io.joined), CurrentRoom(old(st.users), sid), sid, room)
  {
    ghost var before, outbox0, joinedAt0 := st.users, io.outbox, io.joinedAt;

    // leave the previous room
    var prevRoom := CurrentRoom(st.users, sid);
    if InTruthyRoom(prevRoom) {
      io.Leave(sid, prevRoom.value);
      io.Emit(ToRoom(prevRoom.value), MessageEvent, AdminText(Left(name)));
    }
    ghost var mid := io.joined;

    var user := ActivateUser(st, sid, name, room);

    // the previous room's list is taken only after the table rewrite
    if InTruthyRoom(prevRoom) {
      io.Emit(ToRoom(prevRoom.value), UserListEvent, UserList(UsersInRoom(st.users, prevRoom.value)));
    }
    ghost var leaving := EnterRoomLeaving(before, st.users, sid, name);
    assert io.outbox == outbox0 + leaving;
    ghost var leftAt := if InTruthyRoom(prevRoom) then [mid, mid] else [];
    assert io.joinedAt == joinedAt0 + leftAt;

    AnnounceEntry(st, io, sid, user.name, user.room);
    AppendAssoc(outbox0, leaving, EnterRoomJoining(st.users, sid, name, room));
    AppendAssoc(joinedAt0, leftAt, [io.joined, io.joined, io.joined, io.joined]);
  }

  /** The second half of 'enterRoom': `socket.join(user.room)`, then the
      private notice, the notice to the others, the room's list and the
      active rooms. */
  method AnnounceEntry(st: UsersState, io: Hub, sid: SocketId, name: string, room: Room)
    modifies io
    ensures io.outbox == old(io.outbox) + EnterRoomJoining(st.users, sid, name, room)
    ensures io.joined == old(io.joined)[sid := RoomsOf(old(io.joined), sid) + {room}]
    ensures io.joinedAt == old(io.joinedAt) + [io.joined, io.joined, io.joined, io.joined]
  {
    io.Join(sid, room);
    io.Emit(ToSocket(sid), MessageEvent, AdminText(YouJoined(room)));
    io.Emit(ToRoomExcept(room, sid), MessageEvent, AdminText(Joined(name)));
    io.Emit(ToRoom(room), UserListEvent, UserList(UsersInRoom(st.users, room)));
    io.Emit(ToAll, RoomListEvent, RoomList(AllActiveRooms(st.users)));
  }

  // ---------------------------------------------------------------------------
  // 'disconnect'

  /** The emits of 'disconnect' for a socket whose entry was `u`: the left
      notice with the stored name, the room's list taken from the rewritten
      table `after`, and the active rooms under the event name 'room'. */
  function LeaveNotices(after: seq<User>, u: User): seq<Emission> {
    [ Emission(ToRoom(u.room), MessageEvent, AdminText(Left(u.name))),
      Emission(ToRoom(u.room), UserListEvent, UserList(UsersInRoom(after, u.room))),
      Emission(ToAll, RoomEvent, RoomList(AllActiveRooms(after))) ]
  }

  /** The emits of 'disconnect': nothing for a socket with no entry. */
  function DisconnectBatch(before: seq<User>, after: seq<User>, sid: SocketId): seq<Emission> {
    match GetUser(before, sid)
    case None => []
    case Some(u) => LeaveNotices(after, u)
  }

  /** Every emit of 'disconnect' is made once the socket is out of the record. */
  ghost function DisconnectSnapshots(joined: Joined, before: seq<User>, sid: SocketId): seq<Joined> {
    var dropped := joined - {sid};
    if GetUser(before, sid).Some? then [dropped, dropped, dropped] else []
  }

  /** The transport takes the closed socket out of every room before it runs
      the 'disconnect' handler; the handler then reads, rewrites and emits. */
  method Disconnect(st: UsersState, io: Hub, sid: SocketId)
    modifies st, io
    ensures st.users == Without(old(st.users), sid)
    ensures io.outbox == old(io.outbox) + DisconnectBatch(old(st.users), st.users, sid)
    ensures io.joined == old(io.joined) - {sid}
    ensures io.joinedAt == old(io.joinedAt) + DisconnectSnapshots(old(io.joined), old(st.users), sid)
  {
    io.Drop(sid);

    var user := GetUser(st.users, sid);
    UserLeavesApp(st, sid);

    if user.Some? {
      AnnounceLeave(st, io, user.value);
    }
  }

  /** The body of `if (user)` in 'disconnect': the three emits, in order. */
  method AnnounceLeave(st: UsersState, io: Hub, u: User)
    modifies io
    ensures io.outbox == old(io.outbox) + LeaveNotices(st.users, u)
    ensures io.joined == old(io.joined)
    ensures io.joinedAt == old(io.joinedAt) + [io.joined, io.joined, io.joined]
  {
    io.Emit(ToRoom(u.room), MessageEvent, AdminText(Left(u.name)));
    io.Emit(ToRoom(u.room), UserListEvent, UserList(UsersInRoom(st.users, u.room)));
    io.Emit(ToAll, RoomEvent, RoomList(AllActiveRooms(st.users)));
  }

  // ---------------------------------------------------------------------------
  // 'message' and 'activity'

  /** 'message': to the whole current room, sender included, under the name
      the client sent; nothing when the sender has no truthy room. */
  function MessageBatch(users: seq<User>, sid: SocketId, name: string, text: string): seq<Emission> {
    var room := CurrentRoom(users, sid);
    if InTruthyRoom(room) then [Emission(ToRoom(room.value), MessageEvent, Text(name, text))] else []
  }

  /** 'activity': to the current room except the sender; nothing when the
      sender has no truthy room. */
  function ActivityBatch(users: seq<User>, sid: SocketId, name: string): seq<Emission> {
    var room := CurrentRoom(users, sid);
    if InTruthyRoom(room) then [Emission(ToRoomExcept(room.value, sid), ActivityEvent, ActivityName(name))] else []
  }

  method Message(st: UsersState, io: Hub, sid: SocketId, name: string, text: string)
    modifies io
    ensures io.outbox == old(io.outbox) + MessageBatch(st.users, sid, name, text)
    ensures io.joined == old(io.joined)
    ensures io.joinedAt == old(io.joinedAt) + (if InTruthyRoom(CurrentRoom(st.users, sid)) then [io.joined] else [])
  {
    var room := CurrentRoom(st.users, sid);
    if InTruthyRoom(room) {
      io.Emit(ToRoom(room.value), MessageEvent, Text(name, text));
    }
  }

  method Activity(st: UsersState, io: Hub, sid: SocketId, name: string)
    modifies io
    ensures io.outbox == old(io.outbox) + ActivityBatch(st.users, sid, name)
    ensures io.joined == old(io.joined)
    ensures io.joinedAt == old(io.joinedAt) + (if InTruthyRoom(CurrentRoom(st.users, sid)) then [io.joined] else [])
  {
    var room := CurrentRoom(st.users, sid);
    if InTruthyRoom(room) {
      io.Emit(ToRoomExcept(room.value, sid), ActivityEvent, ActivityName(name));
    }
  }

  // ---------------------------------------------------------------------------
  // connection

  /** A new connection: the transport registers the socket, then the server
      greets it privately. */
  method Connection(io: Hub, sid: SocketId)
    modifies io
    ensures io.joined == old(io.joined)[sid := {}]
    ensures io.outbox == old(io.outbox) + [Emission(ToSocket(sid), MessageEvent, AdminText(Welcome))]
    ensures io.joinedAt == old(io.joinedAt) + [io.joined]
  {
    io.Connect(sid);
    io.Emit(ToSocket(sid), MessageEvent, AdminText(Welcome));
  }
}
