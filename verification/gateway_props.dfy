/**
 * What the `message` and `close` handlers promise over whole events: which
 * inbound records are refused and how, what creating a room builds, and when
 * the server can throw.
 */
module GatewayProperties {
  import opened Wrappers
  import opened Protocol
  import opened Text
  import opened RoomState
  import opened Lifecycle
  import opened Moderation
  import opened Gateway
  import opened LifecycleProperties
  import opened ModerationProperties

  /**
   * A new connection has neither a name nor a room: creating or joining a room
   * is refused until it sets a name, a chat line is refused until it joins,
   * and leaving does nothing.
   */
  lemma NewConnectionMustNameFirst(st: State, c: ConnId, n: Option<string>, t: Option<string>)
    requires WellFormed(st) && c !in st.clients
    ensures var s := Connect(st, c);
      && Dispatch(s, c, CreateRoom(n)) == Reply(s, c, SetUsernameFirstText)
      && Dispatch(s, c, JoinRoom(n)) == Reply(s, c, SetUsernameFirstText)
      && Dispatch(s, c, ChatText(t)) == Reply(s, c, JoinRoomFirstText)
      && Dispatch(s, c, LeaveRoom) == Outcome(s, [], false)
  {
  }

  /**
   * `set_username` renames a connection at any time, even inside a room: the
   * session keeps its room and nothing is sent. The room keeps the host name it
   * was created with, so a renamed host's `!cmd` lines are logged as chat
   * instead of being run.
   */
  lemma RenamedHostLosesCommands(st: State, c: ConnId, r: string, name: string, t: string)
    requires WellFormed(st) && c in st.clients && CurrentRoom(st, c) == Some(r) && r in st.rooms
    requires name != "" && name != st.rooms[r].host && t != ""
    ensures var s1 := Rename(st, c, name);
      && Dispatch(st, c, SetUsername(Some(name))) == Outcome(s1, [], false)
      && s1.clients[c] == ClientData(Some(name), Some(r))
      && s1.rooms == st.rooms
      && var b := Dispatch(s1, c, ChatText(Some(t)));
         && !b.crashed
         && r in b.st.rooms
         && b.st.rooms[r].messages == st.rooms[r].messages + [ChatLine(name, t)]
  {
    var s1 := Rename(st, c, name);
    RenameDispatch(st, c, name);
    ChatDispatch(s1, c, r, Some(t));
    ChatLogsPlainLine(s1, c, r, t);
  }

  /** The refusals of `create_room`, in the order the handler checks them; each leaves the tables alone. */
  lemma CreateRoomRefusals(st: State, c: ConnId, n: Option<string>)
    requires WellFormed(st) && c in st.clients
    ensures var o := Dispatch(st, c, CreateRoom(n));
      && (st.clients[c].username.None? ==> o == Reply(st, c, SetUsernameFirstText))
      && (st.clients[c].username.Some? && (n.None? || n == Some("")) ==> o == Reply(st, c, InvalidRoomNameText))
      && (st.clients[c].username.Some? && n.Some? && n.value in st.rooms ==> o == Reply(st, c, RoomExistsText))
  {
  }

  /** The refusals of `join_room`: a session without a name, then a missing, empty or unknown room name. */
  lemma JoinRoomRefusals(st: State, c: ConnId, n: Option<string>)
    requires WellFormed(st) && c in st.clients
    ensures var o := Dispatch(st, c, JoinRoom(n));
      && (st.clients[c].username.None? ==> o == Reply(st, c, SetUsernameFirstText))
      && (st.clients[c].username.Some? && (n.None? || n.value !in st.rooms) ==> o == Reply(st, c, RoomNotFoundText))
  {
  }

  /**
   * The other refusals of the `message` handler: unparsable JSON, a missing or
   * empty username, an unknown `type`, and a chat line from a session in no
   * room. Each answers the sender alone with its error and changes nothing.
   */
  lemma DispatchErrorsAreLocal(st: State, c: ConnId, u: Option<string>, t: Option<string>)
    requires WellFormed(st) && c in st.clients
    ensures var o := Dispatch(st, c, InvalidJson);
      o.st == st && !o.crashed && o.out == [Send(c, Error(InvalidJsonText))]
    ensures var o := Dispatch(st, c, SetUsername(u));
      (u.None? || u == Some("")) ==> o.st == st && !o.crashed && o.out == [Send(c, Error(InvalidUsernameText))]
    ensures var o := Dispatch(st, c, UnknownType);
      o.st == st && !o.crashed && o.out == [Send(c, Error(UnknownCommandText))]
    ensures var o := Dispatch(st, c, ChatText(t));
      CurrentRoom(st, c) == None ==> o.st == st && !o.crashed && o.out == [Send(c, Error(JoinRoomFirstText))]
  {
  }

  /** `list_rooms` answers the asker alone with every public room and its member count. */
  lemma ListRoomsIsPublicSnapshot(st: State, c: ConnId)
    requires WellFormed(st) && c in st.clients
    ensures var o := Dispatch(st, c, ListRooms);
      && o.st == st && !o.crashed && |o.out| == 1 && o.out[0].Send? && o.out[0].to == c
      && o.out[0].event.RoomList?
      && (forall n :: n in o.out[0].event.rooms <==> n in st.rooms && !st.rooms[n].isPrivate)
      && (forall n :: n in o.out[0].event.rooms ==> o.out[0].event.rooms[n] == |st.rooms[n].users|)
  {
  }

  /**
   * Creating a room, for a creator whose session is not stranded (in agreeing
   * tables, every creator): no throw; a public room with an empty log and no
   * bans whose host is the creator and whose only member is the creator, who is
   * told it is the host; the room list is sent twice, last (once by the join,
   * once by `create_room`). Agreement between `currentRoom` and `users` is kept.
   */
  lemma CreateMakesHostedRoom(st: State, c: ConnId, n: string)
    requires WellFormed(st) && c in st.clients && st.clients[c].username.Some? && NotStranded(st, c)
    requires n != "" && n !in st.rooms
    ensures var o := Create(st, c, n);
      var u := st.clients[c].username.value;
      && !o.crashed
      && (RoomsAgree(st) ==> RoomsAgree(o.st))
      && (Consistent(st) ==> Consistent(o.st))
      && n in o.st.rooms && o.st.rooms[n] == Room(u, [c], false, {}, [])
      && CurrentRoom(o.st, c) == Some(n)
      && Send(c, JoinedRoom(n, true)) in o.out
      && |o.out| >= 2
      && o.out[|o.out| - 2] == o.out[|o.out| - 1] == SendToAll(RoomList(PublicRooms(o.st.rooms)))
  {
    var u := st.clients[c].username.value;
    var st1 := AddRoom(st, n, u);
    FreshRoomJoinable(st, c, n);
    JoinFreshRoom(st1, c, n);
    CreateIsJoin(st, c, n);
  }

  /** `create_room` is the join of the tables with the new room added, followed by the room list. */
  lemma CreateIsJoin(st: State, c: ConnId, n: string)
    requires WellFormed(st) && c in st.clients && st.clients[c].username.Some? && n != "" && n !in st.rooms
    ensures var j := Join(AddRoom(st, n, st.clients[c].username.value), c, n);
      !j.crashed ==> Create(st, c, n) == Outcome(j.st, j.out + RoomListUpdate(j.st.rooms), false)
  {
  }

  /** In the tables with the new room added, the creator is not stranded, is not in the new room, and agreement is kept. */
  lemma FreshRoomJoinable(st: State, c: ConnId, n: string)
    requires WellFormed(st) && c in st.clients && st.clients[c].username.Some? && NotStranded(st, c)
    requires n != "" && n !in st.rooms
    ensures var st1 := AddRoom(st, n, st.clients[c].username.value);
      && NotStranded(st1, c) && CurrentRoom(st1, c) != Some(n)
      && st1.rooms[n] == NewRoom(st.clients[c].username.value)
      && (RoomsAgree(st) ==> RoomsAgree(st1))
  {
  }

  /** Joining a fresh room one is not in: the joiner becomes its only member and is told whether it hosts it. */
  lemma JoinFreshRoom(st: State, c: ConnId, n: string)
    requires WellFormed(st) && c in st.clients && st.clients[c].username.Some? && NotStranded(st, c)
    requires n in st.rooms && st.rooms[n] == NewRoom(st.clients[c].username.value) && CurrentRoom(st, c) != Some(n)
    ensures var j := Join(st, c, n);
      && !j.crashed
      && (RoomsAgree(st) ==> RoomsAgree(j.st))
      && j.st.rooms[n] == Room(st.clients[c].username.value, [c], false, {}, [])
      && CurrentRoom(j.st, c) == Some(n)
      && Send(c, JoinedRoom(n, true)) in j.out
      && |j.out| >= 1 && j.out[|j.out| - 1] == SendToAll(RoomList(PublicRooms(j.st.rooms)))
  {
    var j := Join(st, c, n);
    var left := Leave(st, c);
    assert !left.crashed && n in left.st.rooms && left.st.rooms[n] == st.rooms[n];
    JoinNewState(st, c, n);
    JoinReplies(st, c, n);
    if RoomsAgree(st) {
      JoinKeepsConsistent(st, c, n);
    }
    assert j.out[|Leave(st, c).out|] in j.out;
  }

  /**
   * The tables after `create_room`, for a creator whose session is not
   * stranded: those after the creator's leave, plus the new room holding only
   * the creator, with the creator's `currentRoom` set to it.
   */
  lemma CreateNewState(st: State, c: ConnId, n: string)
    requires WellFormed(st) && c in st.clients && st.clients[c].username.Some? && NotStranded(st, c)
    requires n != "" && n !in st.rooms
    ensures var o := Create(st, c, n);
      var l := Leave(st, c).st;
      && !o.crashed && c in l.clients
      && o.st.clients == l.clients[c := l.clients[c].(currentRoom := Some(n))]
      && o.st.rooms == l.rooms[n := Room(st.clients[c].username.value, [c], false, {}, [])]
  {
    var u := st.clients[c].username.value;
    var st1 := AddRoom(st, n, u);
    FreshRoomJoinable(st, c, n);
    LeaveBesideFreshRoom(st, c, n, u);
    JoinFreshRoom(st1, c, n);
    JoinNewState(st1, c, n);
    CreateIsJoin(st, c, n);
    var l := Leave(st, c).st;
    var l1 := Leave(st1, c).st;
    var j := Join(st1, c, n);
    assert l1.clients == l.clients;
    assert l1.rooms == l.rooms[n := NewRoom(u)];
    MapOverwrite(l.rooms, n, NewRoom(u), Room(u, [c], false, {}, []));
  }

  /** Writing a key twice keeps the last value. */
  lemma MapOverwrite<K, V>(m: map<K, V>, k: K, a: V, b: V)
    ensures m[k := a][k := b] == m[k := b]
  {
  }

  /** `delete`-or-update of the leaver's room commutes with adding a room with no members under another name. */
  lemma DepartBesideFreshRoom(st: State, c: ConnId, name: string, n: string, room: Room)
    requires c in st.clients && name in st.rooms && n !in st.rooms
    ensures Depart(st.(rooms := st.rooms[n := room]), c, name).clients == Depart(st, c, name).clients
    ensures Depart(st.(rooms := st.rooms[n := room]), c, name).rooms == Depart(st, c, name).rooms[n := room]
  {
    var d := Depart(st, c, name);
    var d1 := Depart(st.(rooms := st.rooms[n := room]), c, name);
    assert d1.rooms.Keys == d.rooms[n := room].Keys;
  }

  /** A room with no members added beside the leaver's room does not change what the leave does to the rest. */
  lemma LeaveBesideFreshRoom(st: State, c: ConnId, n: string, host: string)
    requires WellFormed(st) && c in st.clients && NotStranded(st, c) && n !in st.rooms && n != ""
    ensures var l := Leave(st, c);
      var l1 := Leave(AddRoom(st, n, host), c);
      && !l.crashed && !l1.crashed
      && l1.st == l.st.(rooms := l.st.rooms[n := NewRoom(host)])
  {
    if CurrentRoom(st, c).Some? {
      DepartBesideFreshRoom(st, c, CurrentRoom(st, c).value, n, NewRoom(host));
    }
  }

  /**
   * Closing forgets the connection after its leave: the sessions are the old
   * ones without `c`, the rooms and the sends are those of the leave, and the
   * handler throws exactly when the session names a deleted room.
   */
  lemma CloseForgets(st: State, c: ConnId)
    requires WellFormed(st) && c in st.clients
    ensures var o := Close(st, c);
      var l := Leave(st, c);
      && (o.crashed <==> !NotStranded(st, c))
      && (!o.crashed ==> o.st.clients == st.clients - {c} && o.st.rooms == l.st.rooms && o.out == l.out)
  {
    var l := Leave(st, c);
    if !l.crashed {
      assert forall k :: k in l.st.clients - {c} ==> (l.st.clients - {c})[k] == st.clients[k];
      assert (l.st.clients - {c}).Keys == (st.clients - {c}).Keys;
    }
  }

  /**
   * A chat record from a member, when `currentRoom` and `users` agree, never
   * throws, and keeps them in agreement unless it is a host's `shutdown` whose
   * host-named room is another live room.
   */
  lemma ChatKeepsConsistent(st: State, c: ConnId, r: string, text: Option<string>)
    requires Consistent(st) && c in st.clients && CurrentRoom(st, c) == Some(r)
    ensures var o := Chat(st, c, r, text);
      && !o.crashed
      && (!ShutdownCollides(st, c, ChatText(text)) ==> Consistent(o.st))
  {
    assert r in st.rooms;
    var room := st.rooms[r];
    if text.Some? && text.value != "" {
      var t := text.value;
      if StartsWith(t, CommandMarker) && st.clients[c].username == Some(room.host) {
        CommandKeepsConsistent(st, c, r, t);
      } else {
        SettingsChangeKeepsInvariants(st, r, room.(messages := room.messages + [ChatLine(st.clients[c].username.value, t)]));
      }
    }
  }

  /** A host command never throws, and keeps agreement unless it is a colliding `shutdown`. */
  lemma CommandKeepsConsistent(st: State, c: ConnId, r: string, t: string)
    requires Consistent(st) && c in st.clients && r in st.rooms
    ensures var o := Command(st, c, r, t);
      var host := st.rooms[r].host;
      && !o.crashed
      && (CommandWord(t) != Some("shutdown") || host !in st.rooms || host == r ==> Consistent(o.st))
  {
    var room := st.rooms[r];
    var cmd := CommandWord(t);
    if cmd == Some("private") {
      SettingsChangeKeepsInvariants(st, r, room.(isPrivate := true));
    } else if cmd == Some("public") {
      SettingsChangeKeepsInvariants(st, r, room.(isPrivate := false));
    } else if cmd == Some("kick") || cmd == Some("ban") {
      KickBanKeepConsistent(st, r, CommandArg(t));
    } else if cmd == Some("shutdown") {
      assert st.rooms[r].users != [];
      ShutdownClosesRoom(st, r);
    } else if cmd == Some("clear") {
      SettingsChangeKeepsInvariants(st, r, room.(messages := []));
    }
  }

  /** A join request that would make a connection re-join the room it is alone in. */
  predicate RejoinsAlone(st: State, c: ConnId, ev: Inbound) {
    && ev.JoinRoom? && ev.roomName.Some?
    && c in st.clients && st.clients[c].username.Some?
    && CurrentRoom(st, c) == ev.roomName
    && ev.roomName.value in st.rooms && st.rooms[ev.roomName.value].users == [c]
  }

  /** A host's `shutdown` in a room whose host's name is the name of another live room. */
  predicate ShutdownCollides(st: State, c: ConnId, ev: Inbound) {
    && ev.ChatText? && ev.text.Some?
    && c in st.clients && st.clients[c].currentRoom.Some?
    && st.clients[c].currentRoom.value in st.rooms
    && var room := st.rooms[st.clients[c].currentRoom.value];
       && StartsWith(ev.text.value, CommandMarker)
       && st.clients[c].username == Some(room.host)
       && CommandWord(ev.text.value) == Some("shutdown")
       && room.host in st.rooms
       && room.host != st.clients[c].currentRoom.value
  }

  /**
   * From a state where `currentRoom` and `users` agree, an inbound record throws
   * exactly when it asks to re-join the room the sender is alone in, and
   * agreement is kept by every record except a colliding `shutdown`.
   */
  lemma DispatchRobust(st: State, c: ConnId, ev: Inbound)
    requires Consistent(st) && c in st.clients
    ensures var o := Dispatch(st, c, ev);
      && (o.crashed <==> RejoinsAlone(st, c, ev))
      && (!o.crashed && !ShutdownCollides(st, c, ev) ==> Consistent(o.st))
  {
    match ev
    case SetUsername(u) => RobustRename(st, c, u);
    case CreateRoom(n) => RobustCreate(st, c, n);
    case JoinRoom(n) => RobustJoin(st, c, n);
    case ChatText(t) => RobustChat(st, c, t);
    case LeaveRoom => LeaveKeepsConsistent(st, c);
    case _ =>
  }

  /** `DispatchRobust` for `set_username`: renaming never throws and keeps agreement. */
  lemma RobustRename(st: State, c: ConnId, u: Option<string>)
    requires Consistent(st) && c in st.clients
    ensures var o := Dispatch(st, c, SetUsername(u));
      && !o.crashed && Consistent(o.st)
  {
    if u.Some? && u.value != "" {
      var st1 := Rename(st, c, u.value);
      assert forall k :: k in st1.clients ==> st1.clients[k].currentRoom == st.clients[k].currentRoom;
    }
  }

  /** `DispatchRobust` for `create_room`: creating never throws and keeps agreement. */
  lemma RobustCreate(st: State, c: ConnId, n: Option<string>)
    requires Consistent(st) && c in st.clients
    ensures var o := Dispatch(st, c, CreateRoom(n));
      && !o.crashed && Consistent(o.st)
  {
    if st.clients[c].username.Some? && n.Some? && n.value != "" && n.value !in st.rooms {
      assert NotStranded(st, c);
      CreateDispatch(st, c, n.value);
      CreateMakesHostedRoom(st, c, n.value);
    }
  }

  /** `DispatchRobust` for `join_room`: a join throws exactly on a re-join alone, and otherwise keeps agreement. */
  lemma RobustJoin(st: State, c: ConnId, n: Option<string>)
    requires Consistent(st) && c in st.clients
    ensures var o := Dispatch(st, c, JoinRoom(n));
      && (o.crashed <==> RejoinsAlone(st, c, JoinRoom(n)))
      && (!o.crashed ==> Consistent(o.st))
  {
    if st.clients[c].username.Some? && n.Some? && n.value != "" && n.value in st.rooms {
      JoinDispatch(st, c, n.value);
      JoinCrashesOnlyWhenAloneInTarget(st, c, n.value);
      JoinKeepsConsistent(st, c, n.value);
    }
  }

  /** `DispatchRobust` for `chat_message`: a chat line never throws and keeps agreement unless it is a colliding shutdown. */
  lemma RobustChat(st: State, c: ConnId, t: Option<string>)
    requires Consistent(st) && c in st.clients
    ensures var o := Dispatch(st, c, ChatText(t));
      && !o.crashed
      && (!ShutdownCollides(st, c, ChatText(t)) ==> Consistent(o.st))
  {
    if st.clients[c].currentRoom.Some? {
      ChatKeepsConsistent(st, c, st.clients[c].currentRoom.value, t);
    }
  }

  /** Closing a connection, when `currentRoom` and `users` agree, never throws and keeps them in agreement. */
  lemma CloseRobust(st: State, c: ConnId)
    requires Consistent(st) && c in st.clients
    ensures !Close(st, c).crashed && Consistent(Close(st, c).st)
  {
    LeaveKeepsConsistent(st, c);
  }

  /**
   * A colliding `shutdown` strands the members of the host-named room: that room
   * is deleted while their sessions still name it, agreement is lost, and the
   * next leave of such a member throws.
   */
  lemma ShutdownCollisionStrandsMembers(st: State, c: ConnId, r: string, t: string, d: ConnId)
    requires Consistent(st) && c in st.clients && CurrentRoom(st, c) == Some(r) && r in st.rooms
    requires ShutdownCollides(st, c, ChatText(Some(t)))
    requires st.rooms[r].host in st.rooms && d in st.rooms[st.rooms[r].host].users && d in st.clients
    ensures var h := st.rooms[r].host;
      var o := Dispatch(st, c, ChatText(Some(t)));
      && !o.crashed
      && h !in o.st.rooms
      && CurrentRoom(o.st, d) == Some(h)
      && !Consistent(o.st)
      && Dispatch(o.st, d, LeaveRoom).crashed
  {
    HostShutdownLine(st, c, r, t);
    var o := Shutdown(st, r);
    assert st.rooms[r].users != [];
    ShutdownClosesRoom(st, r);
    assert d !in st.rooms[r].users;
    StrandedLeaveThrows(o.st, d, st.rooms[r].host);
  }

  /** A host's `!cmd shutdown` line runs `shutdownRoom` on the sender's room. */
  lemma HostShutdownLine(st: State, c: ConnId, r: string, t: string)
    requires WellFormed(st) && c in st.clients && CurrentRoom(st, c) == Some(r) && r in st.rooms
    requires StartsWith(t, CommandMarker) && st.clients[c].username == Some(st.rooms[r].host)
    requires CommandWord(t) == Some("shutdown")
    ensures Dispatch(st, c, ChatText(Some(t))) == Shutdown(st, r)
  {
    ChatDispatch(st, c, r, Some(t));
    HostShutdownChat(st, c, r, t);
  }

  /** A `set_username` record with a non-empty name renames the sender and sends nothing. */
  lemma RenameDispatch(st: State, c: ConnId, name: string)
    requires WellFormed(st) && c in st.clients && name != ""
    ensures Dispatch(st, c, SetUsername(Some(name))) == Outcome(Rename(st, c, name), [], false)
  {
  }

  /** A valid `create_room` record runs the creation path. */
  lemma CreateDispatch(st: State, c: ConnId, n: string)
    requires WellFormed(st) && c in st.clients && st.clients[c].username.Some? && n != "" && n !in st.rooms
    ensures Dispatch(st, c, CreateRoom(Some(n))) == Create(st, c, n)
  {
  }

  /** A `join_room` record naming an existing room, from a named session, runs the join. */
  lemma JoinDispatch(st: State, c: ConnId, n: string)
    requires WellFormed(st) && c in st.clients && st.clients[c].username.Some? && n != "" && n in st.rooms
    ensures Dispatch(st, c, JoinRoom(Some(n))) == Join(st, c, n)
  {
  }

  /** A `chat_message` record from a connection in a room goes to `handleChatMessage` for that room. */
  lemma ChatDispatch(st: State, c: ConnId, r: string, text: Option<string>)
    requires WellFormed(st) && c in st.clients && CurrentRoom(st, c) == Some(r)
    ensures Dispatch(st, c, ChatText(text)) == Chat(st, c, r, text)
  {
  }

  /** A host's `!cmd shutdown` line goes to `handleCommand`, which runs `shutdownRoom`. */
  lemma HostShutdownChat(st: State, c: ConnId, r: string, t: string)
    requires WellFormed(st) && c in st.clients && CurrentRoom(st, c) == Some(r) && r in st.rooms
    requires StartsWith(t, CommandMarker) && st.clients[c].username == Some(st.rooms[r].host)
    requires CommandWord(t) == Some("shutdown")
    ensures Chat(st, c, r, Some(t)) == Shutdown(st, r)
  {
    assert t != "";
    assert Chat(st, c, r, Some(t)) == Command(st, c, r, t);
    CommandShutdown(st, c, r, t);
  }

  /** The `shutdown` command word runs `shutdownRoom`. */
  lemma CommandShutdown(st: State, c: ConnId, r: string, t: string)
    requires WellFormed(st) && c in st.clients && r in st.rooms
    requires CommandWord(t) == Some("shutdown")
    ensures Command(st, c, r, t) == Shutdown(st, r)
  {
  }

  /** A session whose `currentRoom` names a deleted room breaks agreement, and its leave throws. */
  lemma StrandedLeaveThrows(st: State, d: ConnId, h: string)
    requires WellFormed(st) && d in st.clients && CurrentRoom(st, d) == Some(h) && h !in st.rooms
    ensures !Consistent(st) && Dispatch(st, d, LeaveRoom).crashed
  {
  }
}
