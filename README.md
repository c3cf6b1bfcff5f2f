# Chat server presence core, modelled in Dafny

The chat server keeps one mutable user table, `UsersState.users`. Each entry
is `{id, name, room}` for a connected socket that has entered a room. The
table is replaced wholesale through `setUsers`. Five helpers read or rewrite
it: `activateUser`, `userLeavesApp`, `getUser`, `getUsersInRoom` and
`getAllActiveRooms`. The socket.io handlers (the connection greeting,
`enterRoom`, `disconnect`, `message` and `activity`) read the table, rewrite
it at most once, move the socket between transport rooms, and emit an ordered
batch of events.

The model has six modules:

- `Users` (`users.dfy`) holds the table as a value. It has the pure queries
  and the two table rewrites as recursive functions, and their properties as
  lemmas.
- `Store` (`store.dfy`) holds the `UsersState` class. Its `users` field is
  reassigned by `SetUsers`. It also holds the `ActivateUser` and
  `UserLeavesApp` methods, which write the table through `SetUsers`.
- `Transport` (`transport.dfy`) holds the emitted events:
  - a target (one socket, a room, a room minus the sender, or everyone);
  - an event name;
  - a payload.

  It also holds the `Hub` class. A hub keeps an outbox of emits and the
  transport's record of the rooms each connected socket has joined. Beside
  each emit, it keeps (as ghost state) the room record at that moment.
  `Audience` gives the sockets a target reaches under a room record.
- `Handlers` (`handlers.dfy`) holds one method per handler. `EnterRoom` and
  `Disconnect` are proved to rewrite the table as the helpers do; `Message`
  and `Activity` leave it as it is, and `Connection` does not read it. Each
  handler appends to the outbox exactly the batch its function gives (for
  `Connection`, the welcome, which its contract names directly).
- `Membership` (`membership.dfy`) holds the invariant that ties the room
  record to the table, with its preservation by every handler. Under it, an
  emit to a truthy room reaches exactly the sockets the table places there.
- `HandlerProperties` (`properties.dfy`) and `Trace` (`trace.dfy`) hold what
  the batches say and what holds along whole runs.

Socket ids, names, rooms and texts are strings. JavaScript truthiness of a
string means "not empty". `getUser(id)?.room` is an `Option<Room>`, so "no
room" is `None` or `Some("")`.

The `disconnect` handler runs after the transport has already taken the
closing socket out of all its rooms. This is socket.io's behaviour, not
something the repository's own code does. The model assumes it: `Disconnect`
calls `Hub.Drop` first.

Three behaviours of the code are kept as written:

- `disconnect` emits its three events whenever the socket has an entry, even
  when that entry's room is `""`. Only a missing entry silences it.
- Re-entering the room one is already in still runs the whole left cycle. The
  left notice uses the name just sent, not the stored one.
- `activateUser` moves the socket's entry to the end of the table. Room lists
  and the active-rooms list depend on that order.

## Model

| member | source | states |
|---|---|---|
| Users.GetUser | index.js:141-143 | an entry is found exactly when some entry has the id, and the entry found has that id and is in the table |
| Users.GetUserFirst | index.js:141-143 | `find` returns the first entry with the id |
| Users.GetUserFirstAll | index.js:141-143 | for every index holding the first entry with the id, the lookup returns that entry |
| Users.GetUserUnique | index.js:141-143 | with unique ids, the lookup of an entry's id returns that entry |
| Users.GetUserAppend | index.js:141-143 | a lookup in a concatenation searches the first part, then the second |
| Users.Truthy | index.js:44 | computes JavaScript truthiness of a string: only `""` is falsy, as the `if` tests on a room at lines 44, 52, 96 and 106 read it |
| Users.Without | index.js:135-139 | the filter keeps exactly the entries of other sockets, never grows the table, and changes nothing when the id is absent |
| Users.WithoutKeepsUniqueIds | index.js:135-139 | filtering keeps ids unique |
| Users.WithoutAppend | index.js:135-139 | the filter distributes over concatenation, so the remaining entries keep their order |
| Users.WithoutForgets | index.js:135-143 | after removal, `getUser` of the removed id finds nothing |
| Users.WithoutKeepsOthers | index.js:135-139 | removing one socket leaves every other socket's lookup unchanged |
| Users.Activated | index.js:126-133 | the new table is one longer than the filtered table (that it is the filtered table followed by the new record is `Users.ActivatedKeepsRest`); the new record is last and is the only entry with the id; a lookup of the id returns the new record |
| Users.ActivatedKeepsRest | index.js:126-133 | apart from the id's entry, activation leaves the table's entries and order as they were |
| Users.ActivatedKeepsOthers | index.js:126-133 | activation leaves every other socket's lookup unchanged |
| Users.ActivatedMembers | index.js:126-133 | the activated table holds exactly the other sockets' entries and the new record |
| Users.ActivatedKeepsUniqueIds | index.js:126-133 | activation keeps ids unique |
| Users.UsersInRoom | index.js:145-147 | the room filter keeps exactly the entries in the room and never grows the table |
| Users.UsersInRoomEmpty | index.js:145-147 | a room's list is empty exactly when no entry sits in it |
| Users.UsersInRoomAppend | index.js:145-147 | the room filter distributes over concatenation, so lists keep table order |
| Users.UsersInRoomWithout | index.js:135-147 | removing a socket, then listing a room, equals listing the room, then removing the socket |
| Users.UsersInRoomActivated | index.js:126-147 | after activation, a room's list is its other entries in order, then the new record if it sits in that room |
| Users.AllActiveRooms | index.js:149-151 | a room is listed exactly when some entry sits in it; no room is listed twice; the list is empty exactly when the table is |
| Users.AllActiveRoomsOrder | index.js:149-151 | rooms are listed in order of first occurrence in the table |
| Users.AllActiveRoomsPrefix | index.js:149-151 | appending entries only appends rooms: the rooms listed before keep their positions |
| Store.UsersState.constructor | index.js:22-23 | the table starts empty |
| Store.UsersState.SetUsers | index.js:24-26 | the table becomes the given array |
| Store.ActivateUser | index.js:126-133 | returns the new record and rewrites the table to the activated table |
| Store.UserLeavesApp | index.js:135-139 | rewrites the table to the filtered table |
| Transport.NoticeText | index.js:37-82 | computes the wording of each system notice: `'Welcome to chat!'` (37), `'<name> has left the room'` (46, 82), `'You have joined the <room> chat room'` (61) and `'<name> has joined the room'` (64) |
| Transport.BuildMsg | index.js:10-115 | computes the `{name, text}` of a 'message' payload, its time aside: `(ADMIN, the notice's wording)` for a notice, the client's pair for a chat text, nothing for the other payloads |
| Transport.ChatCanPassForNotice | index.js:94-115 | a chat message sent under the name `'Admin'` with a notice's wording carries the same name and text as that notice |
| Transport.Audience | index.js:46-107 | computes the sockets an emit reaches under a room record: `socket.emit` the socket, `io.to(room)` the sockets joined to the room, `socket.broadcast.to(room)` those minus the sender, `io.emit` every connected socket (the per-socket own-id room aside, see "Left out") |
| Transport.Hub.constructor | index.js:29-33 | the server starts with no emits and no connected sockets |
| Transport.Hub.Connect | index.js:36 | a new connection is in the record, with no rooms, and nothing is emitted |
| Transport.Hub.Drop | index.js:77 | a closed connection leaves the record, and nothing is emitted |
| Transport.Hub.Join | index.js:58 | `socket.join` adds the room to the socket's rooms, and nothing else changes |
| Transport.Hub.Leave | index.js:45 | `socket.leave` removes the room from the socket's rooms, and nothing else changes |
| Transport.Hub.Emit | index.js:37 | an emit is appended to the outbox with the current room record, and the record is unchanged |
| Handlers.CurrentRoom | index.js:42 | `getUser(id)?.room` is defined exactly when the socket has an entry, and is then the room of the first entry with that id |
| Handlers.EnterRoomLeaving | index.js:44-56 | computes the emits made while the mover is out of its previous room: none unless that room is truthy, else the left notice under the name just sent and that room's list from the rewritten table |
| Handlers.EnterRoomJoining | index.js:58-74 | computes the four emits after the join: the private notice, the notice to the room's others, the room's list and the active rooms under 'roomList', all from the rewritten table |
| Handlers.EnterRoomBatch | index.js:44-74 | computes the whole batch of `enterRoom`: the leaving emits, then the joining ones |
| Handlers.LeftJoined | index.js:44-45 | computes the room record after `socket.leave(prevRoom)`, which only a truthy previous room triggers |
| Handlers.EnteredJoined | index.js:44-58 | computes the room record after `socket.join(user.room)`, which happens whatever the previous room |
| Handlers.LeaveNotices | index.js:82-90 | computes the three emits of `disconnect` for a stored entry: the left notice with the stored name, the room's list and the active rooms under 'room', both from the rewritten table |
| Handlers.DisconnectBatch | index.js:78-91 | computes the batch of `disconnect`: nothing when `getUser` found no entry, else the three leave emits |
| Handlers.MessageBatch | index.js:95-98 | computes the batch of `message`: nothing unless the sender's room is truthy, else the text to the whole room |
| Handlers.ActivityBatch | index.js:105-108 | computes the batch of `activity`: nothing unless the sender's room is truthy, else the name to the room minus the sender |
| Handlers.Connection | index.js:36-37 | a new socket is registered with no rooms and greeted privately with the welcome notice |
| Handlers.EnterRoom | index.js:39-75 | the table becomes the activated table; the outbox grows by the batch of the old and new tables; the record loses the truthy previous room and gains the new one; each emit is made under the record of its moment |
| Handlers.AnnounceEntry | index.js:58-74 | joins the new room, then emits the private notice, the notice to the others, the room's list and the active rooms, all after the join |
| Handlers.Disconnect | index.js:77-92 | the socket leaves the record, the table becomes the filtered table, and the outbox grows by the disconnect batch, which is read before the rewrite and listed after it |
| Handlers.AnnounceLeave | index.js:81-91 | emits the three leave notices, in order, each under the unchanged room record |
| Handlers.Message | index.js:94-100 | appends the message batch and leaves the record alone |
| Handlers.Activity | index.js:104-109 | appends the activity batch and leaves the record alone |
| Membership.ConnectAgrees | index.js:36 | registering a fresh socket keeps the record in agreement with the table |
| Membership.RoomsOfMover | index.js:42-45 | before `enterRoom`, the mover has joined only its entry's room and possibly `""`, and nothing when it has no entry |
| Membership.EnterRoomAgrees | index.js:39-75 | `enterRoom` keeps the agreement |
| Membership.DisconnectAgrees | index.js:77-79 | `disconnect` keeps the agreement |
| Membership.RoomAudience | index.js:97 | under the agreement, an emit to a truthy room reaches exactly the sockets the table places there |
| Membership.LeavingAudience | index.js:44-56 | the left notice and the previous room's list reach the previous room's other occupants and not the mover |
| Membership.JoiningAudience | index.js:58-74 | after `enterRoom`, the broadcast notice reaches the new room without the mover, the room's list reaches the room and the mover, and `io.emit` reaches every connected socket |
| Membership.DisconnectAudience | index.js:81-86 | the disconnect notices for a truthy room reach exactly the sockets still in it, never the leaver |
| HandlerProperties.EnterRoomEndsJoining | index.js:44-74 | the batch is the leaving emits under the record after `leave`, then the four joining emits under the record after `join` |
| HandlerProperties.EnterRoomFromRoom | index.js:44-56 | from a truthy room there are six emits: first the left notice under the new name, then the previous room's list without the mover (unless it came back to that room) |
| HandlerProperties.EnterRoomFresh | index.js:44-56 | with no entry, or from `""`, only the four joining emits are made |
| HandlerProperties.EnterRoomNewRoomList | index.js:67-69 | the new room's list is its other occupants in table order, then the mover exactly once, at the end |
| HandlerProperties.EnterRoomActiveRooms | index.js:72-74 | a room is listed exactly when it is the new room or another socket is in it; the rooms listed without the mover keep their positions |
| HandlerProperties.SameRoomReentry | index.js:44-69 | re-entering one's own room still sends the left notice under the new name, and sends the room the same list twice, with the mover in it |
| HandlerProperties.EnterRoomLeavingReaches | index.js:44-56 | after `leave`, the first two emits reach the previous room's others and not the mover |
| HandlerProperties.DisconnectUnknown | index.js:77-81 | a socket with no entry leaves the table as it was and emits nothing |
| HandlerProperties.DisconnectKnown | index.js:78-91 | a socket with an entry (even in room `""`) causes three emits: the left notice with the stored name, the room's list without it, and the active rooms under 'room'; its room stays listed exactly when another socket is in it |
| HandlerProperties.DisconnectReaches | index.js:81-91 | the disconnect emits reach the room's remaining occupants, and then every socket still connected |
| HandlerProperties.MessageReaches | index.js:94-100 | a message is dropped exactly when the sender has no truthy room; otherwise it goes once, unchanged, to the whole room, the sender included |
| HandlerProperties.ActivityReaches | index.js:104-109 | an activity is dropped exactly when the sender has no truthy room; otherwise it carries the name to the room minus the sender |
| Trace.Step | index.js:36-92 | computes what one connection, `enterRoom` or `disconnect` does to the table and the room record, as the handler methods do it |
| Trace.ReplayTracksLastEntry | index.js:39-92 | after any run, `getUser` returns the socket's last entry, unless it has disconnected since |
| Trace.ReplayUniqueIds | index.js:126-139 | the table never holds two entries for one socket |
| Trace.ReplayMembers | index.js:39-92 | after any run, the table holds exactly the sockets' last entries |
| Trace.ReplayActiveRooms | index.js:149-151 | after any run, the active rooms are exactly the rooms of the last entries |
| Trace.ReplayAgrees | index.js:36-92 | along any run in which connections get fresh ids and only connected sockets enter rooms or disconnect, the room record agrees with the table |

## Left out

- The HTTP side is not modelled: express, static files, `listen`, `PORT` and the CORS options of the socket.io server. It is bootstrapping, with no logic in the core.
- The `time` field of `buildMsg` is not modelled. It comes from the clock and `Intl.DateTimeFormat`. A payload keeps only the name and the text.
- System notices are kept as the symbolic `Notice`. `Transport.NoticeText` gives the wording of each, and only `Transport.BuildMsg`, and through it `Transport.ChatCanPassForNotice`, uses it.
- Delivery to clients, the network and concurrency are not modelled. Each handler runs to completion on the event loop, so a run is a sequence of events.
- The room socket.io gives each socket under its own id is not modelled. The handlers depend on it: `socket.broadcast.to` leaves out the sockets in the sender's own-id room, and `io.to(room)` also reaches a connected socket whose id equals `room`. Socket ids reach every client in the user lists, so a client can enter a room named after another socket's id.
- Transport.Audience: leaves out the own-id rooms. It is exact only while no room a client has entered equals a connected socket's id. For example, A (id `x1`) sits in `lobby` and B enters the room `x1`; B's next message then reaches A and B, not B alone.
- Membership.RoomAudience: holds for the modelled `Audience`, so only while no room entered equals a connected socket's id (the own-id room is not modelled).
- Membership.LeavingAudience: the same assumption as `Membership.RoomAudience`.
- Membership.JoiningAudience: the same assumption as `Membership.RoomAudience`; in addition, `socket.broadcast.to` would also leave out any socket that had entered a room named after the mover's id.
- Membership.DisconnectAudience: the same assumption as `Membership.RoomAudience`.
- HandlerProperties.EnterRoomLeavingReaches: the same assumption as `Membership.RoomAudience`.
- HandlerProperties.DisconnectReaches: the same assumption as `Membership.RoomAudience`.
- HandlerProperties.MessageReaches: the same assumption as `Membership.RoomAudience`.
- HandlerProperties.ActivityReaches: the same assumption as `Membership.RoomAudience`; in addition, `socket.broadcast.to` would also leave out any socket that had entered a room named after the sender's id.
- The server does not validate payload shapes. The model takes `name`, `room` and `text` to be strings. Other JSON values a client might send, such as `undefined` or numbers, are not modelled.
- The transport taking a closed socket out of its rooms before `disconnect` runs is socket.io's behaviour. The model assumes it, and the repository's code does not show it.
- Transport.Audience for the room `""`: a socket that once entered `""` stays joined to it. Emits to `""` can therefore reach more sockets than the table places there. The audience lemmas speak only of truthy rooms.
- Trace.Step covers connections, `enterRoom` and `disconnect` only. `message` and `activity` change neither the table nor the room record.
