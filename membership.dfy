/**
 * How the transport's room record relates to the user table.  'enterRoom'
 * leaves the previous room only when that room is truthy but always joins the
 * new one, so a socket that once entered the room "" stays joined to "" for
 * as long as it is connected; apart from that, the rooms a socket has joined
 * are exactly the room its table entry names.  The invariant below is kept by
 * every handler, and under it an emit to a truthy room reaches exactly the
 * sockets the table places there.
 */
module Membership {
  import opened Users
  import opened Transport
  import opened Handlers

  /** Every entry's socket is connected and joined to the entry's room and,
      besides, at most to ""; a connected socket without an entry has joined
      nothing. */
  ghost predicate Agrees(users: seq<User>, joined: Joined) {
    (forall u :: u in users ==>
      u.id in joined && u.room in joined[u.id] && joined[u.id] <= {u.room, ""})
    && (forall sid :: sid in joined && !HasId(users, sid) ==> joined[sid] == {})
  }

  /** A socket that connects has no entry yet; registering it keeps the agreement. */
  lemma ConnectAgrees(users: seq<User>, joined: Joined, sid: SocketId)
    requires Agrees(users, joined) && sid !in joined
    ensures Agrees(users, joined[sid := {}])
  {
    forall u | u in users ensures u.id != sid {
      assert u.id in joined;
    }
  }

  /** The rooms the mover has joined before 'enterRoom' are its entry's room and "". */
  lemma RoomsOfMover(users: seq<User>, joined: Joined, sid: SocketId)
    requires Agrees(users, joined)
    ensures CurrentRoom(users, sid).Some? ==> RoomsOf(joined, sid) <= {CurrentRoom(users, sid).value, ""}
    ensures CurrentRoom(users, sid).None? ==> RoomsOf(joined, sid) == {}
  {
    var g := GetUser(users, sid);
    if g.Some? {
      assert g.value in users;
    }
  }

  /** 'enterRoom' keeps the agreement. */
  lemma EnterRoomAgrees(users: seq<User>, joined: Joined, sid: SocketId, name: string, room: Room)
    requires Agrees(users, joined)
    ensures Agrees(Activated(users, sid, name, room),
                   EnteredJoined(joined, CurrentRoom(users, sid), sid, room))
  {
    var prev := CurrentRoom(users, sid);
    var users' := Activated(users, sid, name, room);
    var joined' := EnteredJoined(joined, prev, sid, room);
    var rest := Without(users, sid);
    var me := User(sid, name, room);
    assert users' == rest + [me];
    RoomsOfMover(users, joined, sid);
    assert joined'[sid] <= {room, ""};
    forall u | u in users'
      ensures u.id in joined' && u.room in joined'[u.id] && joined'[u.id] <= {u.room, ""}
    {
      if u != me {
        assert u in rest;
      }
    }
    forall s | s in joined' && !HasId(users', s) ensures joined'[s] == {} {
      assert me in users';
      assert s != sid;
    }
  }

  /** 'disconnect' (the transport forgetting the socket, then the table
      rewrite) keeps the agreement. */
  lemma DisconnectAgrees(users: seq<User>, joined: Joined, sid: SocketId)
    requires Agrees(users, joined)
    ensures Agrees(Without(users, sid), joined - {sid})
  {
  }

  /** Under the agreement, an emit to a truthy room reaches exactly the sockets
      the table places in it. */
  lemma RoomAudience(users: seq<User>, joined: Joined, room: Room)
    requires Agrees(users, joined) && Truthy(room)
    ensures Audience(ToRoom(room), joined) == IdsInRoom(users, room)
  {
    forall s | s in Audience(ToRoom(room), joined) ensures s in IdsInRoom(users, room) {
      assert joined[s] != {};
      var u :| u in users && u.id == s;
      assert room in {u.room, ""};
    }
  }

  /** The left notice and the previous room's list of 'enterRoom' are made
      after `socket.leave`, so they reach the others in the previous room and
      never the mover. */
  lemma LeavingAudience(users: seq<User>, joined: Joined, sid: SocketId)
    requires Agrees(users, joined) && InTruthyRoom(CurrentRoom(users, sid))
    ensures var p := CurrentRoom(users, sid).value;
      Audience(ToRoom(p), LeftJoined(joined, CurrentRoom(users, sid), sid)) == IdsInRoom(users, p) - {sid}
  {
    var prev := CurrentRoom(users, sid);
    var p := prev.value;
    var mid := LeftJoined(joined, prev, sid);
    forall s | s in Audience(ToRoom(p), mid) ensures s in IdsInRoom(users, p) - {sid} {
      assert s != sid;
      assert joined[s] != {};
      var u :| u in users && u.id == s;
      assert p in {u.room, ""};
    }
  }

  /** After 'enterRoom' into a truthy room, its notice to the others reaches
      every socket in the new room but the mover, the room's list reaches the
      mover as well, and an emit to all reaches every connected socket, the
      mover included. */
  lemma JoiningAudience(users: seq<User>, joined: Joined, sid: SocketId, name: string, room: Room)
    requires Agrees(users, joined) && Truthy(room)
    ensures var after := Activated(users, sid, name, room);
      var joined' := EnteredJoined(joined, CurrentRoom(users, sid), sid, room);
      Audience(ToRoomExcept(room, sid), joined') == IdsInRoom(after, room) - {sid}
      && Audience(ToRoom(room), joined') == IdsInRoom(after, room)
      && sid in Audience(ToRoom(room), joined')
      && Audience(ToAll, joined') == joined.Keys + {sid}
  {
    var after := Activated(users, sid, name, room);
    var joined' := EnteredJoined(joined, CurrentRoom(users, sid), sid, room);
    EnterRoomAgrees(users, joined, sid, name, room);
    RoomAudience(after, joined', room);
    assert after[|after| - 1] in after;
    assert joined'.Keys == joined.Keys + {sid};
  }

  /** The notices of 'disconnect' are made once the transport has forgotten the
      socket, so for a truthy room they reach exactly the sockets still in it. */
  lemma DisconnectAudience(users: seq<User>, joined: Joined, sid: SocketId)
    requires Agrees(users, joined)
    requires GetUser(users, sid).Some? && Truthy(GetUser(users, sid).value.room)
    ensures var room := GetUser(users, sid).value.room;
      Audience(ToRoom(room), joined - {sid}) == IdsInRoom(Without(users, sid), room)
      && sid !in Audience(ToRoom(room), joined - {sid})
  {
    DisconnectAgrees(users, joined, sid);
    RoomAudience(Without(users, sid), joined - {sid}, GetUser(users, sid).value.room);
  }
}
