/** What leaving and joining a room promise, proved from `Lifecycle.Leave` and `Lifecycle.Join`. */
module LifecycleProperties {
  import opened Wrappers
  import opened Protocol
  import opened RoomState
  import opened Lifecycle

  /** A duplicate-free sequence holding `c` and nothing else is `[c]`. */
  lemma SoleMember(s: seq<ConnId>, c: ConnId)
    requires Distinct(s) && c in s
    ensures (forall u :: u in s ==> u == c) <==> s == [c]
  {
    if forall u :: u in s ==> u == c {
      assert s[0] in s;
      assert |s| >= 2 ==> s[1] in s;
    }
  }

  /** In well-formed tables a connection is a member of at most one room, the one its session names. */
  lemma AtMostOneRoom(st: State, c: ConnId, r1: string, r2: string)
    requires WellFormed(st) && r1 in st.rooms && r2 in st.rooms
    requires c in st.rooms[r1].users && c in st.rooms[r2].users
    ensures r1 == r2 && CurrentRoom(st, c) == Some(r1)
  {
  }

  /** A connection outside any room (or unknown) leaves nothing: the call is harmless. */
  lemma LeaveOutsideRoomIsNoOp(st: State, c: ConnId)
    requires WellFormed(st) && CurrentRoom(st, c) == None
    ensures Leave(st, c) == Outcome(st, [], false)
  {
  }

  /** Leaving twice is leaving once: the second call finds no current room. */
  lemma LeaveIdempotent(st: State, c: ConnId)
    requires WellFormed(st)
    ensures var o := Leave(st, c);
      !o.crashed ==> Leave(o.st, c) == Outcome(o.st, [], false)
  {
  }

  /**
   * Leaving a room that exists: the connection is out, the remaining members (in
   * their order) are told, and the room is deleted exactly when nobody else was
   * in it. Only the deletion refreshes the room list; a plain leave sends no list.
   */
  lemma LeaveFromRoom(st: State, c: ConnId)
    requires WellFormed(st) && CurrentRoom(st, c).Some? && CurrentRoom(st, c).value in st.rooms
    ensures var r := CurrentRoom(st, c).value;
      var users := st.rooms[r].users;
      var notice := Fanout(Without(users, c), SystemMessage(UserLeft(st.clients[c].username.value)));
      var o := Leave(st, c);
      && !o.crashed
      && CurrentRoom(o.st, c) == None
      && (r in o.st.rooms <==> exists u :: u in users && u != c)
      && (r in o.st.rooms ==> o.st.rooms[r].users == Without(users, c) && o.out == notice)
      && (r !in o.st.rooms ==> o.out == RoomListUpdate(o.st.rooms))
  {
    var r := CurrentRoom(st, c).value;
    WithoutEmpty(st.rooms[r].users, c);
  }

  /** A leave from an existing room is the table update `Depart` and never throws. */
  lemma LeaveIsDepart(st: State, c: ConnId)
    requires WellFormed(st) && CurrentRoom(st, c).Some? && CurrentRoom(st, c).value in st.rooms
    ensures var o := Leave(st, c);
      !o.crashed && o.st == Depart(st, c, CurrentRoom(st, c).value)
  {
  }

  /** When `currentRoom` and `users` agree, a leave never throws and they still agree afterwards. */
  lemma LeaveKeepsConsistent(st: State, c: ConnId)
    requires WellFormed(st) && RoomsAgree(st)
    ensures var o := Leave(st, c);
      && !o.crashed && RoomsAgree(o.st)
      && (Consistent(st) ==> Consistent(o.st))
  {
    var o := Leave(st, c);
    if CurrentRoom(st, c).Some? {
      var r := CurrentRoom(st, c).value;
      LeaveFromRoom(st, c);
      forall k | k in o.st.clients && o.st.clients[k].currentRoom.Some?
        ensures o.st.clients[k].currentRoom.value in o.st.rooms
        ensures k in o.st.rooms[o.st.clients[k].currentRoom.value].users
      {
        var r' := o.st.clients[k].currentRoom.value;
        assert k != c && st.clients[k] == o.st.clients[k];
        assert k in st.rooms[r'].users;
        if r' == r {
          assert k in Without(st.rooms[r].users, c);
        }
      }
    }
  }

  /**
   * After a join that is not refused, the connection's `currentRoom` is the
   * target, it is a member of the target, and of no other room.
   */
  lemma JoinPlacesInOneRoom(st: State, c: ConnId, r: string)
    requires WellFormed(st) && c in st.clients && st.clients[c].username.Some? && r in st.rooms
    requires st.clients[c].username.value !in st.rooms[r].banned
    ensures var o := Join(st, c, r);
      !o.crashed ==>
        && CurrentRoom(o.st, c) == Some(r)
        && c in o.st.rooms[r].users
        && forall r' :: r' in o.st.rooms && r' != r ==> c !in o.st.rooms[r'].users
  {
    var o := Join(st, c, r);
    if !o.crashed {
      MemberOfCurrentRoomOnly(o.st, c, r);
    }
  }

  /** Under `MembersAgree`, a session sits in no room other than its current one. */
  lemma MemberOfCurrentRoomOnly(s: State, c: ConnId, r: string)
    requires MembersAgree(s) && c in s.clients && s.clients[c].currentRoom == Some(r)
    ensures forall r' :: r' in s.rooms && r' != r ==> c !in s.rooms[r'].users
  {
  }

  /**
   * The tables after a join that is not refused: those after the leave, with
   * the joiner's `currentRoom` set to the target and the joiner added last to
   * the target's members; no other session or room changes.
   */
  lemma JoinNewState(st: State, c: ConnId, r: string)
    requires WellFormed(st) && c in st.clients && st.clients[c].username.Some? && r in st.rooms
    requires st.clients[c].username.value !in st.rooms[r].banned
    ensures var o := Join(st, c, r);
      var l := Leave(st, c).st;
      && (o.crashed <==> Leave(st, c).crashed || r !in l.rooms)
      && (!o.crashed ==>
            && r in l.rooms && c in l.clients
            && o.st.clients == l.clients[c := l.clients[c].(currentRoom := Some(r))]
            && o.st.rooms == l.rooms[r := l.rooms[r].(users := l.rooms[r].users + [c])])
  {
    var o := Join(st, c, r);
    var left := if st.clients[c].currentRoom.Some? then Leave(st, c) else Outcome(st, [], false);
    assert left == Leave(st, c);
    if !o.crashed {
      AddMemberWellFormed(left.st, c, r);
    }
  }

  /**
   * A banned name is refused: after the previous room has been left, the joiner
   * alone gets the ban error, is not a member, and has no current room.
   */
  lemma BannedJoinRefused(st: State, c: ConnId, r: string)
    requires WellFormed(st) && c in st.clients && st.clients[c].username.Some? && r in st.rooms
    requires st.clients[c].username.value in st.rooms[r].banned
    ensures var o := Join(st, c, r);
      var left := Leave(st, c);
      !o.crashed ==>
        && o.st == left.st
        && o.out == left.out + [Send(c, Error(BannedText))]
        && c !in o.st.rooms[r].users
        && CurrentRoom(o.st, c) == None
  {
  }

  /** A join from no room by a name the room does not ban only adds the member. */
  lemma JoinFromNoRoom(st: State, c: ConnId, r: string)
    requires WellFormed(st) && c in st.clients && st.clients[c].username.Some? && r in st.rooms
    requires st.clients[c].currentRoom == None && st.clients[c].username.value !in st.rooms[r].banned
    ensures var j := Join(st, c, r); !j.crashed && j.st == AddMember(st, c, r)
  {
  }

  /**
   * A successful joiner receives, right after whatever its leave sent: the
   * confirmation with its host status, the room's visibility, then every logged
   * line in log order tagged with whether the host wrote it; then the room
   * (joiner last) hears of the join and every connection gets the room list.
   */
  lemma JoinReplies(st: State, c: ConnId, r: string)
    requires WellFormed(st) && c in st.clients && st.clients[c].username.Some? && r in st.rooms
    requires st.clients[c].username.value !in st.rooms[r].banned
    ensures var o := Join(st, c, r);
      var before := Leave(st, c).out;
      var room := st.rooms[r];
      var name := st.clients[c].username.value;
      var n := |before| + 2 + |room.messages|;
      !o.crashed ==>
        && |o.out| >= n
        && o.out[..|before|] == before
        && o.out[|before|] == Send(c, JoinedRoom(r, room.host == name))
        && o.out[|before| + 1] == Send(c, RoomStatus(room.isPrivate))
        && (forall k :: 0 <= k < |room.messages| ==>
              o.out[|before| + 2 + k] ==
              Send(c, Message(room.messages[k].user, room.messages[k].text, room.messages[k].user == room.host)))
        && o.out[n..] == Fanout(o.st.rooms[r].users, SystemMessage(UserJoined(name))) + RoomListUpdate(o.st.rooms)
        && o.st.rooms[r].users[|o.st.rooms[r].users| - 1] == c
  {
    var o := Join(st, c, r);
    JoinOutput(st, c, r);
    JoinNewState(st, c, r);
    if !o.crashed {
      var room := st.rooms[r];
      var name := st.clients[c].username.value;
      ReplyLayout(o.out, Leave(st, c).out, [Send(c, JoinedRoom(r, room.host == name)), Send(c, RoomStatus(room.isPrivate))],
        c, room.messages, room.host,
        Fanout(o.st.rooms[r].users, SystemMessage(UserJoined(name))) + RoomListUpdate(o.st.rooms));
    }
  }

  /** Where the replies of a join sit in `before + head + replay + tail`. */
  lemma ReplyLayout(out: seq<Outbound>, before: seq<Outbound>, head: seq<Outbound>,
                    c: ConnId, log: seq<ChatLine>, host: string, tail: seq<Outbound>)
    requires |head| == 2 && out == before + head + Replay(c, log, host) + tail
    ensures var n := |before| + 2 + |log|;
      && |out| >= n
      && out[..|before|] == before
      && out[|before|] == head[0]
      && out[|before| + 1] == head[1]
      && (forall k :: 0 <= k < |log| ==>
            out[|before| + 2 + k] == Send(c, Message(log[k].user, log[k].text, log[k].user == host)))
      && out[n..] == tail
  {
    Layout(before, head, Replay(c, log, host), tail);
  }

  /** The records of a successful join, as one concatenation. */
  lemma JoinOutput(st: State, c: ConnId, r: string)
    requires WellFormed(st) && c in st.clients && st.clients[c].username.Some? && r in st.rooms
    requires st.clients[c].username.value !in st.rooms[r].banned
    ensures var o := Join(st, c, r);
      var room := st.rooms[r];
      var name := st.clients[c].username.value;
      !o.crashed ==>
        && o.out == Leave(st, c).out
             + [Send(c, JoinedRoom(r, room.host == name)), Send(c, RoomStatus(room.isPrivate))]
             + Replay(c, room.messages, room.host)
             + Fanout(o.st.rooms[r].users, SystemMessage(UserJoined(name))) + RoomListUpdate(o.st.rooms)
  {
    var o := Join(st, c, r);
    var left := if st.clients[c].currentRoom.Some? then Leave(st, c) else Outcome(st, [], false);
    assert left == Leave(st, c);
    if !o.crashed {
      var room1 := left.st.rooms[r];
      assert room1 == st.rooms[r].(users := room1.users);
    }
  }

  /** Where each part of `a + h + m + t` sits. */
  lemma Layout<T>(a: seq<T>, h: seq<T>, m: seq<T>, t: seq<T>)
    ensures var s := a + h + m + t;
      && s[..|a|] == a
      && (forall k :: 0 <= k < |h| ==> s[|a| + k] == h[k])
      && (forall k :: 0 <= k < |m| ==> s[|a| + |h| + k] == m[k])
      && s[|a| + |h| + |m|..] == t
  {
  }

  /**
   * When `currentRoom` and `users` agree, a join throws exactly when the joiner
   * is the only member of the room it asks to join: leaving deletes that room
   * before it is looked up again.
   */
  lemma JoinCrashesOnlyWhenAloneInTarget(st: State, c: ConnId, r: string)
    requires WellFormed(st) && RoomsAgree(st) && c in st.clients && st.clients[c].username.Some? && r in st.rooms
    ensures Join(st, c, r).crashed <==> CurrentRoom(st, c) == Some(r) && st.rooms[r].users == [c]
  {
    LeaveKeepsConsistent(st, c);
    if CurrentRoom(st, c).Some? {
      var r0 := CurrentRoom(st, c).value;
      LeaveFromRoom(st, c);
      SoleMember(st.rooms[r0].users, c);
    }
  }

  /** When `currentRoom` and `users` agree, a join that does not throw keeps them in agreement. */
  lemma JoinKeepsConsistent(st: State, c: ConnId, r: string)
    requires WellFormed(st) && RoomsAgree(st) && c in st.clients && st.clients[c].username.Some? && r in st.rooms
    ensures var o := Join(st, c, r);
      && (!o.crashed ==> RoomsAgree(o.st))
      && (!o.crashed && Consistent(st) ==> Consistent(o.st))
  {
    var o := Join(st, c, r);
    LeaveKeepsConsistent(st, c);
    var left := Leave(st, c);
    if !o.crashed && st.clients[c].username.value !in st.rooms[r].banned {
      var st1 := left.st;
      assert o.st == AddMember(st1, c, r);
      AddMemberWellFormed(st1, c, r);
      forall k | k in o.st.clients && o.st.clients[k].currentRoom.Some?
        ensures o.st.clients[k].currentRoom.value in o.st.rooms
        ensures k in o.st.rooms[o.st.clients[k].currentRoom.value].users
      {
        if k != c {
          var r' := o.st.clients[k].currentRoom.value;
          assert st1.clients[k] == o.st.clients[k];
          assert k in st1.rooms[r'].users;
        }
      }
    }
  }
}
