/**
 * The user table of the chat server (`UsersState.users`) as a value, and the
 * pure queries over it: `getUser`, `getUsersInRoom`, `getAllActiveRooms`, and
 * the two table rewrites that `activateUser` and `userLeavesApp` hand to
 * `setUsers`.
 *
 * Every client-supplied value (socket id, name, room) is a string.  A room is
 * "truthy" in the JavaScript sense exactly when it is not the empty string.
 */
module Users {

  type SocketId = string
  type Room = string

  /** One entry of the table: `{id, name, room}`. */
  datatype User = User(id: SocketId, name: string, room: Room)

  datatype Option<T> = None | Some(value: T)

  /** JavaScript truthiness of a string: only "" is falsy. */
  predicate Truthy(s: string) {
    s != ""
  }

  ghost predicate HasId(users: seq<User>, id: SocketId) {
    exists u :: u in users && u.id == id
  }

  /** At most one entry per socket id. */
  ghost predicate UniqueIds(users: seq<User>) {
    forall i, j :: 0 <= i < j < |users| ==> users[i].id != users[j].id
  }

  ghost predicate NoDuplicateRooms(rooms: seq<Room>) {
    forall i, j :: 0 <= i < j < |rooms| ==> rooms[i] != rooms[j]
  }

  /** The sockets the table places in `room`. */
  ghost function IdsInRoom(users: seq<User>, room: Room): set<SocketId> {
    set u | u in users && u.room == room :: u.id
  }

  /** Some entry other than the one for `id` sits in `room`. */
  ghost predicate OthersInRoom(users: seq<User>, id: SocketId, room: Room) {
    exists u :: u in users && u.id != id && u.room == room
  }

  lemma AppendAssoc<T>(a: seq<T>, b: seq<T>, c: seq<T>)
    ensures a + b + c == a + (b + c)
  {
  }

  // ---------------------------------------------------------------------------
  // getUser: the first entry whose id is the given one, if any

  function GetUser(users: seq<User>, id: SocketId): (r: Option<User>)
    ensures r.Some? <==> HasId(users, id)
    ensures r.Some? ==> r.value in users && r.value.id == id
  {
    if users == [] then None
    else if users[0].id == id then Some(users[0])
    else GetUser(users[1..], id)
  }

  /** `find` returns the FIRST entry with the id. */
  lemma {:induction false} GetUserFirst(users: seq<User>, id: SocketId, i: nat)
    requires i < |users| && users[i].id == id
    requires forall j :: 0 <= j < i ==> users[j].id != id
    ensures GetUser(users, id) == Some(users[i])
  {
    if i > 0 {
      assert users[0].id != id;
      forall j | 0 <= j < i - 1 ensures users[1..][j].id != id {
        assert users[1..][j] == users[j + 1];
      }
      GetUserFirst(users[1..], id, i - 1);
    }
  }

  /** Index `i` holds the first entry with the id. */
  ghost predicate FirstWithId(users: seq<User>, id: SocketId, i: int) {
    0 <= i < |users| && users[i].id == id && forall j :: 0 <= j < i ==> users[j].id != id
  }

  /** `GetUserFirst`, for every index at once. */
  lemma GetUserFirstAll(users: seq<User>, id: SocketId)
    ensures forall i :: FirstWithId(users, id, i) ==> GetUser(users, id) == Some(users[i])
  {
    forall i | FirstWithId(users, id, i) ensures GetUser(users, id) == Some(users[i]) {
      GetUserFirst(users, id, i);
    }
  }

  /** With unique ids, `getUser` returns the one entry for that id. */
  lemma GetUserUnique(users: seq<User>, u: User)
    requires UniqueIds(users) && u in users
    ensures GetUser(users, u.id) == Some(u)
  {
    var i :| 0 <= i < |users| && users[i] == u;
    GetUserFirst(users, u.id, i);
  }

  /** Lookup in a concatenation looks in the first part first. */
  lemma {:induction false} GetUserAppend(a: seq<User>, b: seq<User>, id: SocketId)
    ensures GetUser(a + b, id) == if HasId(a, id) then GetUser(a, id) else GetUser(b, id)
  {
    if a == [] {
      assert a + b == b;
    } else {
      assert (a + b)[1..] == a[1..] + b;
      GetUserAppend(a[1..], b, id);
      if a[0].id != id {
        assert HasId(a, id) ==> HasId(a[1..], id) by {
          if HasId(a, id) {
            var u :| u in a && u.id == id;
            assert u in a[1..] by {
              var k :| 0 <= k < |a| && a[k] == u;
              assert k != 0;
              assert a[1..][k - 1] == u;
            }
          }
        }
      }
    }
  }

  // ---------------------------------------------------------------------------
  // userLeavesApp: the entries of every other socket, in table order

  function Without(users: seq<User>, id: SocketId): (r: seq<User>)
    ensures forall u :: u in r <==> u in users && u.id != id
    ensures |r| <= |users|
    ensures !HasId(users, id) ==> r == users
  {
    if users == [] then []
    else
      assert users == [users[0]] + users[1..];
      (if users[0].id != id then [users[0]] else []) + Without(users[1..], id)
  }

  lemma UniqueIdsCons(x: User, t: seq<User>)
    requires UniqueIds(t) && forall u :: u in t ==> u.id != x.id
    ensures UniqueIds([x] + t)
  {
    var r := [x] + t;
    forall i, j | 0 <= i < j < |r| ensures r[i].id != r[j].id {
      assert r[j] == t[j - 1];
      if i > 0 {
        assert r[i] == t[i - 1];
      } else {
        assert t[j - 1] in t;
      }
    }
  }

  lemma UniqueIdsTail(users: seq<User>)
    requires UniqueIds(users) && users != []
    ensures UniqueIds(users[1..])
    ensures forall u :: u in users[1..] ==> u.id != users[0].id
  {
    forall u | u in users[1..] ensures u.id != users[0].id {
      var k :| 0 <= k < |users[1..]| && users[1..][k] == u;
      assert users[k + 1] == u;
    }
    forall i, j | 0 <= i < j < |users[1..]| ensures users[1..][i].id != users[1..][j].id {
      assert users[1..][i] == users[i + 1] && users[1..][j] == users[j + 1];
    }
  }

  /** Filtering keeps ids unique. */
  lemma {:induction false} WithoutKeepsUniqueIds(users: seq<User>, id: SocketId)
    requires UniqueIds(users)
    ensures UniqueIds(Without(users, id))
  {
    if users != [] {
      UniqueIdsTail(users);
      WithoutKeepsUniqueIds(users[1..], id);
      if users[0].id != id {
        UniqueIdsCons(users[0], Without(users[1..], id));
      }
    }
  }

  /** The filter distributes over concatenation, so it keeps table order. */
  lemma {:induction false} WithoutAppend(a: seq<User>, b: seq<User>, id: SocketId)
    ensures Without(a + b, id) == Without(a, id) + Without(b, id)
  {
    if a == [] {
      assert a + b == b;
    } else {
      var head := if a[0].id != id then [a[0]] else [];
      assert (a + b)[0] == a[0];
      assert (a + b)[1..] == a[1..] + b;
      calc {
        Without(a + b, id);
        head + Without(a[1..] + b, id);
        { WithoutAppend(a[1..], b, id); }
        head + (Without(a[1..], id) + Without(b, id));
        { AppendAssoc(head, Without(a[1..], id), Without(b, id)); }
        head + Without(a[1..], id) + Without(b, id);
        Without(a, id) + Without(b, id);
      }
    }
  }

  /** Once its entries are removed, a socket is no longer found. */
  lemma WithoutForgets(users: seq<User>, id: SocketId)
    ensures GetUser(Without(users, id), id) == None
  {
    assert !HasId(Without(users, id), id);
  }

  /** Removing one socket leaves the lookup of every other socket as it was. */
  lemma {:induction false} WithoutKeepsOthers(users: seq<User>, id: SocketId, other: SocketId)
    requires other != id
    ensures GetUser(Without(users, id), other) == GetUser(users, other)
  {
    if users != [] {
      WithoutKeepsOthers(users[1..], id, other);
      var w := Without(users[1..], id);
      if users[0].id != id {
        assert Without(users, id) == [users[0]] + w;
        assert ([users[0]] + w)[1..] == w;
      } else {
        assert Without(users, id) == w;
      }
    }
  }

  // ---------------------------------------------------------------------------
  // activateUser: the entries of every other socket, in table order, then the
  // new record

  function Activated(users: seq<User>, id: SocketId, name: string, room: Room): (r: seq<User>)
    ensures |r| == |Without(users, id)| + 1
    ensures r[|r| - 1] == User(id, name, room)
    ensures forall i :: 0 <= i < |r| - 1 ==> r[i].id != id
    ensures GetUser(r, id) == Some(User(id, name, room))
  {
    var u := User(id, name, room);
    var rest := Without(users, id);
    var r := rest + [u];
    assert forall i :: 0 <= i < |r| - 1 ==> r[i] == rest[i];
    assert forall i :: 0 <= i < |rest| ==> rest[i] in rest;
    GetUserFirst(r, id, |r| - 1);
    r
  }

  /** Apart from the entry for `id`, activation leaves the table exactly as it
      was, entries and order alike. */
  lemma ActivatedKeepsRest(users: seq<User>, id: SocketId, name: string, room: Room)
    ensures Without(Activated(users, id, name, room), id) == Without(users, id)
  {
    var u := User(id, name, room);
    var rest := Without(users, id);
    WithoutAppend(rest, [u], id);
    assert Without([u], id) == [];
  }

  /** Activating one socket leaves the lookup of every other socket as it was. */
  lemma ActivatedKeepsOthers(users: seq<User>, id: SocketId, name: string, room: Room, other: SocketId)
    requires other != id
    ensures GetUser(Activated(users, id, name, room), other) == GetUser(users, other)
  {
    var rest := Without(users, id);
    GetUserAppend(rest, [User(id, name, room)], other);
    WithoutKeepsOthers(users, id, other);
    if !HasId(rest, other) {
      assert GetUser([User(id, name, room)], other) == None;
    }
  }

  /** The activated table holds the other sockets' entries and the new record. */
  lemma ActivatedMembers(users: seq<User>, id: SocketId, name: string, room: Room, u: User)
    ensures u in Activated(users, id, name, room) <==> (u in users && u.id != id) || u == User(id, name, room)
  {
    assert Activated(users, id, name, room) == Without(users, id) + [User(id, name, room)];
  }

  /** Activation keeps ids unique. */
  lemma ActivatedKeepsUniqueIds(users: seq<User>, id: SocketId, name: string, room: Room)
    requires UniqueIds(users)
    ensures UniqueIds(Activated(users, id, name, room))
  {
    WithoutKeepsUniqueIds(users, id);
    var r := Activated(users, id, name, room);
    var rest := Without(users, id);
    forall i, j | 0 <= i < j < |r| ensures r[i].id != r[j].id {
      if j < |r| - 1 {
        assert r[i] == rest[i] && r[j] == rest[j];
      }
    }
  }

  // ---------------------------------------------------------------------------
  // getUsersInRoom: the entries sitting in the room, in table order

  function UsersInRoom(users: seq<User>, room: Room): (r: seq<User>)
    ensures forall u :: u in r <==> u in users && u.room == room
    ensures |r| <= |users|
  {
    if users == [] then []
    else
      assert users == [users[0]] + users[1..];
      (if users[0].room == room then [users[0]] else []) + UsersInRoom(users[1..], room)
  }

  /** A room nobody occupies lists as empty, indistinguishable from an unknown room. */
  lemma UsersInRoomEmpty(users: seq<User>, room: Room)
    ensures UsersInRoom(users, room) == [] <==> forall u :: u in users ==> u.room != room
  {
    var r := UsersInRoom(users, room);
    if r != [] {
      assert r[0] in r;
    }
  }

  /** The room filter distributes over concatenation, so it keeps table order. */
  lemma {:induction false} UsersInRoomAppend(a: seq<User>, b: seq<User>, room: Room)
    ensures UsersInRoom(a + b, room) == UsersInRoom(a, room) + UsersInRoom(b, room)
  {
    if a == [] {
      assert a + b == b;
    } else {
      var head := if a[0].room == room then [a[0]] else [];
      assert (a + b)[0] == a[0];
      assert (a + b)[1..] == a[1..] + b;
      calc {
        UsersInRoom(a + b, room);
        head + UsersInRoom(a[1..] + b, room);
        { UsersInRoomAppend(a[1..], b, room); }
        head + (UsersInRoom(a[1..], room) + UsersInRoom(b, room));
        { AppendAssoc(head, UsersInRoom(a[1..], room), UsersInRoom(b, room)); }
        head + UsersInRoom(a[1..], room) + UsersInRoom(b, room);
        UsersInRoom(a, room) + UsersInRoom(b, room);
      }
    }
  }

  /** Taking a socket out of the table and then listing a room is the same as
      listing the room and then taking the socket out of the list. */
  lemma {:induction false} UsersInRoomWithout(users: seq<User>, id: SocketId, room: Room)
    ensures UsersInRoom(Without(users, id), room) == Without(UsersInRoom(users, room), id)
  {
    if users != [] {
      var head := if users[0].id != id then [users[0]] else [];
      var inHead := if users[0].room == room then [users[0]] else [];
      UsersInRoomWithout(users[1..], id, room);
      UsersInRoomAppend(head, Without(users[1..], id), room);
      WithoutAppend(inHead, UsersInRoom(users[1..], room), id);
      assert head == [] || head[1..] == [];
      assert inHead == [] || inHead[1..] == [];
    }
  }

  /** A room's list after activation: the room's other entries in table
      order, then the new record if it sits in that room. */
  lemma UsersInRoomActivated(users: seq<User>, id: SocketId, name: string, room: Room, r: Room)
    ensures UsersInRoom(Activated(users, id, name, room), r)
      == Without(UsersInRoom(users, r), id) + (if room == r then [User(id, name, room)] else [])
  {
    var u := User(id, name, room);
    var rest := Without(users, id);
    var tail := if room == r then [u] else [];
    assert UsersInRoom([u], r) == tail by {
      assert [u][1..] == [];
    }
    calc {
      UsersInRoom(Activated(users, id, name, room), r);
      UsersInRoom(rest + [u], r);
      { UsersInRoomAppend(rest, [u], r); }
      UsersInRoom(rest, r) + tail;
      { UsersInRoomWithout(users, id, r); }
      Without(UsersInRoom(users, r), id) + tail;
    }
  }

  // ---------------------------------------------------------------------------
  // getAllActiveRooms: the entries' rooms with repeats dropped.  The rooms go
  // through a JavaScript Set, which iterates in insertion order, so each room
  // appears once, at the position of its first occurrence in the table.

  function AllActiveRooms(users: seq<User>): (r: seq<Room>)
    ensures forall x :: x in r <==> exists u :: u in users && u.room == x
    ensures NoDuplicateRooms(r)
    ensures |r| <= |users|
    ensures r == [] <==> users == []
  {
    if users == [] then []
    else
      var last := users[|users| - 1];
      var prefix := users[..|users| - 1];
      assert users == prefix + [last];
      var rest := AllActiveRooms(prefix);
      if last.room in rest then
        assert rest != [];
        rest
      else
        rest + [last.room]
  }

  ghost predicate RoomOccursBefore(users: seq<User>, room: Room, k: nat) {
    exists k' :: 0 <= k' < k && k' < |users| && users[k'].room == room
  }

  /** First-occurrence order: any entry sitting in a later room of the list is
      preceded in the table by an entry sitting in an earlier one. */
  lemma {:induction false} AllActiveRoomsOrder(users: seq<User>, i: nat, j: nat, k: nat)
    requires i < j < |AllActiveRooms(users)|
    requires k < |users| && users[k].room == AllActiveRooms(users)[j]
    ensures RoomOccursBefore(users, AllActiveRooms(users)[i], k)
  {
    var n := |users|;
    var last := users[n - 1];
    var prefix := users[..n - 1];
    var rest := AllActiveRooms(prefix);
    assert users == prefix + [last];
    if j < |rest| {
      assert AllActiveRooms(users)[i] == rest[i] && AllActiveRooms(users)[j] == rest[j];
      if k < n - 1 {
        assert prefix[k] == users[k];
        AllActiveRoomsOrder(prefix, i, j, k);
        var k' :| 0 <= k' < k && k' < |prefix| && prefix[k'].room == rest[i];
        assert users[k'] == prefix[k'];
      } else {
        assert rest[j] in rest;
        var u :| u in prefix && u.room == rest[j];
        var k2 :| 0 <= k2 < |prefix| && prefix[k2] == u;
        AllActiveRoomsOrder(prefix, i, j, k2);
        var k' :| 0 <= k' < k2 && k' < |prefix| && prefix[k'].room == rest[i];
        assert users[k'] == prefix[k'];
      }
    } else {
      assert last.room !in rest && AllActiveRooms(users) == rest + [last.room];
      assert AllActiveRooms(users)[i] == rest[i];
      if k < n - 1 {
        assert false;
      }
      assert rest[i] in rest;
      var u :| u in prefix && u.room == rest[i];
      var k' :| 0 <= k' < |prefix| && prefix[k'] == u;
      assert users[k'] == prefix[k'];
    }
  }

  /** Appending entries to the table only ever appends rooms to the list:
      the rooms already listed keep their positions. */
  lemma {:induction false} AllActiveRoomsPrefix(a: seq<User>, b: seq<User>)
    ensures AllActiveRooms(a) <= AllActiveRooms(a + b)
  {
    if b == [] {
      assert a + b == a;
    } else {
      var b' := b[..|b| - 1];
      assert (a + b)[..|a + b| - 1] == a + b';
      AllActiveRoomsPrefix(a, b');
    }
  }
}
