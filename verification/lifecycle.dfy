/**
 * Room membership: `leaveRoom` and `joinRoom` of server.js as functions from the
 * tables before to the tables after and the records sent.
 */
module Lifecycle {
  import opened Wrappers
  import opened Protocol
  import opened RoomState

  /**
   * `leaveRoom(ws)`: nothing for an unknown connection or one outside any room;
   * otherwise the connection leaves the members of its room, the remaining members
   * hear that it left, the room is deleted (and the room list refreshed) when no
   * member is left, and the session's `currentRoom` becomes null. It throws when
   * `currentRoom` names a room that no longer exists.
   */
  function Leave(st: State, c: ConnId): (o: Outcome)
    requires WellFormed(st)
    ensures SameSessions(st, o.st)
    ensures forall k :: k in st.clients && k != c ==> o.st.clients[k] == st.clients[k]
    ensures !o.crashed ==> WellFormed(o.st) && NoNewEmptyRoom(st, o.st)
    ensures !o.crashed ==> CurrentRoom(o.st, c) == None
    ensures !o.crashed ==> o.st.rooms.Keys <= st.rooms.Keys && OnlyMembershipChanged(st, o.st)
    ensures forall r :: r in st.rooms && CurrentRoom(st, c) != Some(r) ==>
      r in o.st.rooms && o.st.rooms[r] == st.rooms[r]
    ensures o.crashed ==> o.st == st && o.out == []
    ensures o.crashed <==> !NotStranded(st, c)
  {
    if c !in st.clients || st.clients[c].currentRoom.None? then Outcome(st, [], false)
    else
      var cd := st.clients[c];
      var name := cd.currentRoom.value;
      if name !in st.rooms then Outcome(st, [], true)
      else
        var room := st.rooms[name].(users := Without(st.rooms[name].users, c));
        var notice := Broadcast(st.rooms[name := room], name, SystemMessage(UserLeft(cd.username.value)));
        var st1 := Depart(st, c, name);
        DepartWellFormed(st, c, name);
        if room.users == [] then Outcome(st1, notice + RoomListUpdate(st1.rooms), false)
        else Outcome(st1, notice, false)
  }

  /**
   * The table updates of a leave: `room.users.delete(ws)`, `delete chatRooms[name]`
   * when no member is left, and `clientData.currentRoom = null`.
   */
  function Depart(st: State, c: ConnId, name: string): State
    requires c in st.clients && name in st.rooms
  {
    var room := st.rooms[name].(users := Without(st.rooms[name].users, c));
    var clients1 := st.clients[c := st.clients[c].(currentRoom := None)];
    if room.users == [] then State(clients1, st.rooms - {name})
    else State(clients1, st.rooms[name := room])
  }

  /**
   * The tables after a leave: the session's `currentRoom` is cleared, the room
   * keeps its other members and survives exactly when one is left, and no other
   * room changes.
   */
  lemma DepartTables(st: State, c: ConnId, name: string)
    requires c in st.clients && name in st.rooms
    ensures var st' := Depart(st, c, name);
      && st'.clients == st.clients[c := st.clients[c].(currentRoom := None)]
      && (name in st'.rooms <==> exists u :: u in st.rooms[name].users && u != c)
      && (name in st'.rooms ==> st'.rooms[name] == st.rooms[name].(users := Without(st.rooms[name].users, c)))
      && (forall r :: r != name ==> (r in st'.rooms <==> r in st.rooms))
      && (forall r :: r != name && r in st.rooms ==> st'.rooms[r] == st.rooms[r])
  {
    WithoutEmpty(st.rooms[name].users, c);
  }

  /** Removing a connection from the room it is in keeps the tables well formed and touches nothing else. */
  lemma DepartWellFormed(st: State, c: ConnId, name: string)
    requires WellFormed(st) && CurrentRoom(st, c) == Some(name) && name in st.rooms
    ensures var st1 := Depart(st, c, name);
      && SameSessions(st, st1)
      && (forall k :: k in st.clients && k != c ==> st1.clients[k] == st.clients[k])
      && WellFormed(st1) && NoNewEmptyRoom(st, st1)
      && CurrentRoom(st1, c) == None
      && st1.rooms.Keys <= st.rooms.Keys && OnlyMembershipChanged(st, st1)
      && (forall r :: r in st.rooms && r != name ==> r in st1.rooms && st1.rooms[r] == st.rooms[r])
  {
    var st1 := Depart(st, c, name);
    DepartFrame(st, c, name);
    DepartTables(st, c, name);
    forall r, u | r in st1.rooms && u in st1.rooms[r].users
      ensures u in st1.clients && st1.clients[u].currentRoom == Some(r)
    {
      assert u in st.rooms[r].users && u != c;
    }
    assert MembersAgree(st1);
    forall r | r in st1.rooms
      ensures Distinct(st1.rooms[r].users)
    {
      assert r in st.rooms && Distinct(st.rooms[r].users);
    }
    assert SessionsOk(st1) by {
      assert SessionOk(st.clients[c].(currentRoom := None));
    }
  }

  /** What a leave keeps: the sessions, every other session and room, and every room's settings. */
  lemma DepartFrame(st: State, c: ConnId, name: string)
    requires WellFormed(st) && CurrentRoom(st, c) == Some(name) && name in st.rooms
    ensures var st1 := Depart(st, c, name);
      && SameSessions(st, st1)
      && (forall k :: k in st.clients && k != c ==> st1.clients[k] == st.clients[k])
      && NoNewEmptyRoom(st, st1)
      && CurrentRoom(st1, c) == None
      && st1.rooms.Keys <= st.rooms.Keys && OnlyMembershipChanged(st, st1)
      && (forall r :: r in st.rooms && r != name ==> r in st1.rooms && st1.rooms[r] == st.rooms[r])
  {
    DepartTables(st, c, name);
  }

  /**
   * `joinRoom(ws, roomName)`, called once the session has a name and the room
   * exists: leave the current room first; refuse a banned name with an error to
   * the joiner only; otherwise make the connection a member, send it the
   * confirmation, the room's visibility and the replayed log, tell the room, and
   * refresh the room list. It throws when leaving deleted the target room.
   */
  function Join(st: State, c: ConnId, r: string): (o: Outcome)
    requires WellFormed(st) && c in st.clients && st.clients[c].username.Some? && r in st.rooms
    ensures SameSessions(st, o.st)
    ensures forall k :: k in st.clients && k != c ==> o.st.clients[k] == st.clients[k]
    ensures !o.crashed ==> WellFormed(o.st) && NoNewEmptyRoom(st, o.st)
    ensures !o.crashed ==> r in o.st.rooms
    ensures !o.crashed ==> o.st.rooms[r].banned == st.rooms[r].banned
    ensures !o.crashed ==>
      (CurrentRoom(o.st, c) == Some(r) <==> st.clients[c].username.value !in st.rooms[r].banned)
    ensures !o.crashed ==> (c in o.st.rooms[r].users <==> CurrentRoom(o.st, c) == Some(r))
  {
    var left := if st.clients[c].currentRoom.Some? then Leave(st, c) else Outcome(st, [], false);
    if left.crashed then left
    else if r !in left.st.rooms then Outcome(left.st, left.out, true)
    else
      var st1 := left.st;
      var cd := st1.clients[c];
      var name := cd.username.value;
      var room := st1.rooms[r];
      if name in room.banned then
        Outcome(st1, left.out + [Send(c, Error(BannedText))], false)
      else
        var st2 := AddMember(st1, c, r);
        AddMemberWellFormed(st1, c, r);
        Outcome(st2,
          left.out
          + [Send(c, JoinedRoom(r, room.host == name)), Send(c, RoomStatus(room.isPrivate))]
          + Replay(c, room.messages, room.host)
          + Broadcast(st2.rooms, r, SystemMessage(UserJoined(name)))
          + RoomListUpdate(st2.rooms),
          false)
  }

  /** `clientData.currentRoom = roomName; room.users.add(ws)` */
  function AddMember(st: State, c: ConnId, r: string): State
    requires c in st.clients && r in st.rooms
  {
    var room := st.rooms[r];
    State(st.clients[c := st.clients[c].(currentRoom := Some(r))],
          st.rooms[r := room.(users := Insert(room.users, c))])
  }

  /**
   * The tables after `currentRoom = roomName; room.users.add(ws)`: only the
   * session's room and the room's members change, the old members keep their
   * order and the connection is a member.
   */
  lemma AddMemberTables(st: State, c: ConnId, r: string)
    requires c in st.clients && r in st.rooms
    ensures var st' := AddMember(st, c, r);
      && st'.clients == st.clients[c := st.clients[c].(currentRoom := Some(r))]
      && st'.rooms.Keys == st.rooms.Keys
      && (forall r' :: r' in st.rooms && r' != r ==> st'.rooms[r'] == st.rooms[r'])
      && st'.rooms[r] == st.rooms[r].(users := st'.rooms[r].users)
      && c in st'.rooms[r].users
      && |st'.rooms[r].users| >= |st.rooms[r].users|
      && st'.rooms[r].users[..|st.rooms[r].users|] == st.rooms[r].users
  {
    InsertAdds(st.rooms[r].users, c);
  }

  /** Adding a named connection that is in no room to an existing room keeps the tables well formed. */
  lemma AddMemberWellFormed(st: State, c: ConnId, r: string)
    requires WellFormed(st) && c in st.clients && st.clients[c].username.Some? && r in st.rooms
    requires CurrentRoom(st, c) == None
    ensures WellFormed(AddMember(st, c, r))
    ensures SameSessions(st, AddMember(st, c, r))
    ensures NoNewEmptyRoom(st, AddMember(st, c, r))
    ensures AddMember(st, c, r).rooms[r].users == st.rooms[r].users + [c]
  {
    var st2 := AddMember(st, c, r);
    var users := st.rooms[r].users;
    assert c !in users;
    assert st2.rooms[r].users == users + [c];
    assert Distinct(users + [c]) by {
      forall i, j | 0 <= i < j < |users| + 1 ensures (users + [c])[i] != (users + [c])[j] {
        if j == |users| { assert users[i] in users; }
      }
    }
    forall r', u | r' in st2.rooms && u in st2.rooms[r'].users
      ensures u in st2.clients && st2.clients[u].currentRoom == Some(r')
    {
      if u != c {
        assert u in st.rooms[r'].users;
      }
    }
  }
}
