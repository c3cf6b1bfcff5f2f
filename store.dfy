/**
 * `UsersState`: the server's one mutable user table, replaced wholesale by
 * `setUsers`, and the two helpers that write it, `activateUser` and
 * `userLeavesApp`.
 */
module Store {
  import opened Users

  class UsersState {
    var users: seq<User>

    /** The table starts empty. */
    constructor ()
      ensures users == []
    {
      users := [];
    }

    /** `setUsers(newUsersArray)`: the table becomes the given array. */
    method SetUsers(newUsers: seq<User>)
      modifies this
      ensures users == newUsers
    {
      users := newUsers;
    }
  }

  /** `activateUser(id, name, room)`: drop every entry for `id`, append the new
      record and return it. */
  method ActivateUser(st: UsersState, id: SocketId, name: string, room: Room) returns (user: User)
    modifies st
    ensures user == User(id, name, room)
    ensures st.users == Activated(old(st.users), id, name, room)
  {
    user := User(id, name, room);
    st.SetUsers(Without(st.users, id) + [user]);
  }

  /** `userLeavesApp(id)`: drop every entry for `id`. */
  method UserLeavesApp(st: UsersState, id: SocketId)
    modifies st
    ensures st.users == Without(old(st.users), id)
  {
    st.SetUsers(Without(st.users, id));
  }
}
