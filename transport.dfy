/**
 * The socket.io side, kept symbolic: what a handler hands to the transport
 * (an outbox of emissions, each with an event name, a target and a payload)
 * and the transport's own record of which rooms each connected socket has
 * joined.  Delivery itself is not modelled; the hub keeps, beside each emit,
 * the room record at the moment it was made, and `Audience` says which
 * sockets a target reaches under a given room record.
 */
module Transport {
  import opened Users

  /** Who an emit is addressed to. */
  datatype Target =
    | ToSocket(sid: SocketId)                     // socket.emit(...)
    | ToRoom(room: Room)                          // io.to(room).emit(...)
    | ToRoomExcept(room: Room, sender: SocketId)  // socket.broadcast.to(room).emit(...)
    | ToAll                                       // io.emit(...)

  /** The event names used on the wire: 'message', 'userList', 'roomList',
      'room' and 'activity'. */
  datatype Event = MessageEvent | UserListEvent | RoomListEvent | RoomEvent | ActivityEvent

  /** The sender name of every system notice. */
  const ADMIN: string := "Admin"

  /** The system notices, sent as `buildMsg(ADMIN, NoticeText(notice))`. */
  datatype Notice = Welcome | YouJoined(room: Room) | Joined(name: string) | Left(name: string)

  function NoticeText(n: Notice): string {
    match n
    case Welcome => "Welcome to chat!"
    case YouJoined(room) => "You have joined the " + room + " chat room"
    case Joined(name) => name + " has joined the room"
    case Left(name) => name + " has left the room"
  }

  /** What an emit carries; a chat text stands for `buildMsg(name, text)`
      without its time stamp. */
  datatype Payload =
    | AdminText(notice: Notice)         // buildMsg(ADMIN, NoticeText(notice))
    | Text(name: string, text: string)  // buildMsg(name, text)
    | UserList(users: seq<User>)        // { users }
    | RoomList(rooms: seq<Room>)        // { rooms }
    | ActivityName(name: string)        // the bare name sent with 'activity'

  /** The `{name, text}` that `buildMsg` puts in a 'message' payload, its time
      stamp aside: system notices are signed `ADMIN`, chat texts with the name
      the client sent.  User lists, room lists and activity names carry none. */
  function BuildMsg(p: Payload): Option<(string, string)> {
    match p
    case AdminText(n) => Some((ADMIN, NoticeText(n)))
    case Text(name, text) => Some((name, text))
    case _ => None
  }

  /** The server does not reserve the name `ADMIN`: a chat message sent under
      that name with a notice's wording is the notice itself on the wire. */
  lemma ChatCanPassForNotice(n: Notice)
    ensures BuildMsg(Text(ADMIN, NoticeText(n))) == BuildMsg(AdminText(n))
  {
  }

  datatype Emission = Emission(target: Target, event: Event, payload: Payload)

  /** The transport's room record: for each connected socket, the rooms it has joined. */
  type Joined = map<SocketId, set<Room>>

  function RoomsOf(joined: Joined, sid: SocketId): set<Room> {
    if sid in joined then joined[sid] else {}
  }

  /** The sockets an emit to `t` reaches while the room record is `joined`. */
  ghost function Audience(t: Target, joined: Joined): set<SocketId> {
    match t
    case ToSocket(sid) => {sid}
    case ToRoom(room) => set sid | sid in joined && room in joined[sid]
    case ToRoomExcept(room, sender) => (set sid | sid in joined && room in joined[sid]) - {sender}
    case ToAll => joined.Keys
  }

  /** The `io` server together with the per-socket side of socket.io. */
  class Hub {
    /** Every emit made so far, oldest first. */
    var outbox: seq<Emission>
    /** The transport's room record. */
    var joined: Joined
    /** For each emit in `outbox`, the room record when it was made. */
    ghost var joinedAt: seq<Joined>

    constructor ()
      ensures outbox == [] && joined == map[] && joinedAt == []
    {
      outbox := [];
      joined := map[];
      joinedAt := [];
    }

    /** A new connection: the transport knows the socket, in no room yet. */
    method Connect(sid: SocketId)
      modifies this
      ensures joined == old(joined)[sid := {}]
      ensures outbox == old(outbox) && joinedAt == old(joinedAt)
    {
      joined := joined[sid := {}];
    }

    /** A closed connection: the transport forgets the socket and every room it was in. */
    method Drop(sid: SocketId)
      modifies this
      ensures joined == old(joined) - {sid}
      ensures outbox == old(outbox) && joinedAt == old(joinedAt)
    {
      joined := joined - {sid};
    }

    /** `socket.join(room)`. */
    method Join(sid: SocketId, room: Room)
      modifies this
      ensures joined == old(joined)[sid := RoomsOf(old(joined), sid) + {room}]
      ensures outbox == old(outbox) && joinedAt == old(joinedAt)
    {
      joined := joined[sid := RoomsOf(joined, sid) + {room}];
    }

    /** `socket.leave(room)`. */
    method Leave(sid: SocketId, room: Room)
      modifies this
      ensures joined == old(joined)[sid := RoomsOf(old(joined), sid) - {room}]
      ensures outbox == old(outbox) && joinedAt == old(joinedAt)
    {
      joined := joined[sid := RoomsOf(joined, sid) - {room}];
    }

    /** One emit, made under the current room record. */
    method Emit(target: Target, event: Event, payload: Payload)
      modifies this
      ensures outbox == old(outbox) + [Emission(target, event, payload)]
      ensures joinedAt == old(joinedAt) + [joined]
      ensures joined == old(joined)
    {
      outbox := outbox + [Emission(target, event, payload)];
      joinedAt := joinedAt + [joined];
    }
  }
}
