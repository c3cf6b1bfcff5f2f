/**
 * Whole runs of the server.  Only connections, 'enterRoom' and 'disconnect'
 * change the user table or the transport's room record ('message' and
 * 'activity' read the table and change neither), so a run is a sequence of
 * those three events, replayed from the empty table and the empty record.
 */
module Trace {
  import opened Users
  import opened Transport
  import opened Handlers
  import opened Membership

  datatype ServerEvent =
    | Connected(sid: SocketId)
    | Entered(sid: SocketId, name: string, room: Room)
    | Disconnected(sid: SocketId)

  /** The user table together with the transport's room record. */
  datatype World = World(users: seq<User>, joined: Joined)

  /** What one event does to the world, as the handlers and the transport do it. */
  function Step(w: World, e: ServerEvent): World {
    match e
    case Connected(sid) => World(w.users, w.joined[sid := {}])
    case Entered(sid, name, room) =>
      World(Activated(w.users, sid, name, room), EnteredJoined(w.joined, CurrentRoom(w.users, sid), sid, room))
    case Disconnected(sid) => World(Without(w.users, sid), w.joined - {sid})
  }

  function Replay(evs: seq<ServerEvent>): World {
    if evs == [] then World([], map[])
    else Step(Replay(evs[..|evs| - 1]), evs[|evs| - 1])
  }

  /** The transport gives every connection a socket id not in use, and
      delivers 'enterRoom' and 'disconnect' only from a connected socket. */
  ghost predicate ConnectedRun(evs: seq<ServerEvent>) {
    forall k :: 0 <= k < |evs| ==>
      (evs[k].Connected? <==> evs[k].sid !in Replay(evs[..k]).joined)
  }

  /** The record a socket last entered a room with, unless it disconnected
      since: an independent reading of the run, without the table. */
  function LastEntry(evs: seq<ServerEvent>, sid: SocketId): Option<User> {
    if evs == [] then None
    else
      var prefix := evs[..|evs| - 1];
      match evs[|evs| - 1]
      case Connected(_) => LastEntry(prefix, sid)
      case Entered(s, name, room) => if s == sid then Some(User(s, name, room)) else LastEntry(prefix, sid)
      case Disconnected(s) => if s == sid then None else LastEntry(prefix, sid)
  }

  /** `getUser` after any run returns the socket's last entry. */
  lemma {:induction false} ReplayTracksLastEntry(evs: seq<ServerEvent>, sid: SocketId)
    ensures GetUser(Replay(evs).users, sid) == LastEntry(evs, sid)
  {
    if evs != [] {
      var prefix := evs[..|evs| - 1];
      var users := Replay(prefix).users;
      ReplayTracksLastEntry(prefix, sid);
      match evs[|evs| - 1]
      case Connected(_) =>
      case Entered(s, name, room) =>
        if s != sid {
          ActivatedKeepsOthers(users, s, name, room, sid);
        }
      case Disconnected(s) =>
        if s != sid {
          WithoutKeepsOthers(users, s, sid);
        } else {
          assert !HasId(Without(users, sid), sid);
        }
    }
  }

  /** The table never holds two entries for one socket. */
  lemma {:induction false} ReplayUniqueIds(evs: seq<ServerEvent>)
    ensures UniqueIds(Replay(evs).users)
  {
    if evs != [] {
      var prefix := evs[..|evs| - 1];
      var users := Replay(prefix).users;
      ReplayUniqueIds(prefix);
      match evs[|evs| - 1]
      case Connected(_) =>
      case Entered(s, name, room) => ActivatedKeepsUniqueIds(users, s, name, room);
      case Disconnected(s) => WithoutKeepsUniqueIds(users, s);
    }
  }

  /** The table after a run holds exactly the sockets' last entries. */
  lemma ReplayMembers(evs: seq<ServerEvent>, u: User)
    ensures u in Replay(evs).users <==> LastEntry(evs, u.id) == Some(u)
  {
    ReplayTracksLastEntry(evs, u.id);
    if u in Replay(evs).users {
      ReplayUniqueIds(evs);
      GetUserUnique(Replay(evs).users, u);
    }
  }

  /** The active rooms after a run are exactly the rooms of the last entries. */
  lemma ReplayActiveRooms(evs: seq<ServerEvent>, x: Room)
    ensures x in AllActiveRooms(Replay(evs).users)
      <==> exists sid :: LastEntry(evs, sid).Some? && LastEntry(evs, sid).value.room == x
  {
    var users := Replay(evs).users;
    if x in AllActiveRooms(users) {
      var u :| u in users && u.room == x;
      ReplayMembers(evs, u);
    }
    if exists sid :: LastEntry(evs, sid).Some? && LastEntry(evs, sid).value.room == x {
      var sid :| LastEntry(evs, sid).Some? && LastEntry(evs, sid).value.room == x;
      ReplayTracksLastEntry(evs, sid);
    }
  }

  /** Along any run the transport can deliver, the room record agrees with
      the table, so every emit to a truthy room reaches exactly its occupants. */
  lemma {:induction false} ReplayAgrees(evs: seq<ServerEvent>)
    requires ConnectedRun(evs)
    ensures Agrees(Replay(evs).users, Replay(evs).joined)
  {
    if evs != [] {
      var n := |evs|;
      var prefix := evs[..n - 1];
      forall k | 0 <= k < |prefix|
        ensures prefix[k].Connected? <==> prefix[k].sid !in Replay(prefix[..k]).joined
      {
        assert prefix[k] == evs[k] && prefix[..k] == evs[..k];
      }
      ReplayAgrees(prefix);
      var w := Replay(prefix);
      match evs[n - 1]
      case Connected(s) =>
        assert evs[..n - 1] == prefix;
        ConnectAgrees(w.users, w.joined, s);
      case Entered(s, name, room) => EnterRoomAgrees(w.users, w.joined, s, name, room);
      case Disconnected(s) => DisconnectAgrees(w.users, w.joined, s);
    }
  }
}
