/** What chat lines and the host's commands promise, proved from the functions of `Moderation`. */
module ModerationProperties {
  import opened Wrappers
  import opened Protocol
  import opened Text
  import opened RoomState
  import opened Lifecycle
  import opened Moderation
  import opened LifecycleProperties

  /** A missing or empty text is ignored: nothing is logged and nothing is sent. */
  lemma ChatIgnoresEmptyText(st: State, c: ConnId, r: string, text: Option<string>)
    requires WellFormed(st) && c in st.clients && CurrentRoom(st, c) == Some(r)
    requires text.None? || text == Some("")
    ensures Chat(st, c, r, text) == Outcome(st, [], false)
  {
  }

  /**
   * A line that is not a host command is appended once to the end of the room's
   * log, under the sender's name, and every member (the sender included) gets
   * it once, in member order; nothing else changes.
   */
  lemma ChatLogsPlainLine(st: State, c: ConnId, r: string, t: string)
    requires WellFormed(st) && c in st.clients && CurrentRoom(st, c) == Some(r) && r in st.rooms
    requires t != "" && !(StartsWith(t, CommandMarker) && st.clients[c].username == Some(st.rooms[r].host))
    ensures var o := Chat(st, c, r, Some(t));
      var room := st.rooms[r];
      var name := st.clients[c].username.value;
      && !o.crashed
      && o.st.clients == st.clients
      && o.st.rooms.Keys == st.rooms.Keys
      && (forall r' :: r' in st.rooms && r' != r ==> o.st.rooms[r'] == st.rooms[r'])
      && o.st.rooms[r] == room.(messages := room.messages + [ChatLine(name, t)])
      && |o.out| == |room.users|
      && (forall k :: 0 <= k < |room.users| ==> o.out[k] == Send(room.users[k], Message(name, t, name == room.host)))
  {
  }

  /** A plain line sent before a join is the last line replayed to the joiner. */
  lemma ChatThenJoinReplays(st: State, c: ConnId, r: string, t: string, d: ConnId)
    requires WellFormed(st) && c in st.clients && CurrentRoom(st, c) == Some(r) && r in st.rooms
    requires t != "" && !(StartsWith(t, CommandMarker) && st.clients[c].username == Some(st.rooms[r].host))
    requires d in st.clients && st.clients[d].username.Some?
    requires st.clients[d].username.value !in st.rooms[r].banned
    ensures var o := Chat(st, c, r, Some(t));
      var j := Join(o.st, d, r);
      var before := Leave(o.st, d).out;
      var name := st.clients[c].username.value;
      !j.crashed ==>
        && |j.out| > |before| + 1 + |st.rooms[r].messages|
        && j.out[|before| + 2 + |st.rooms[r].messages|] == Send(d, Message(name, t, name == st.rooms[r].host))
  {
    var o := Chat(st, c, r, Some(t));
    ChatLogsPlainLine(st, c, r, t);
    JoinReplies(o.st, d, r);
    var log := o.st.rooms[r].messages;
    var name := st.clients[c].username.value;
    assert |log| == |st.rooms[r].messages| + 1 && log[|st.rooms[r].messages|] == ChatLine(name, t);
    assert o.st.rooms[r].host == st.rooms[r].host;
  }

  /**
   * A line starting with `!cmd` from the room's host is a command and is never
   * logged: every room's log is kept, except that `clear` empties the issuer's room's log.
   */
  lemma HostCommandNotLogged(st: State, c: ConnId, r: string, t: string)
    requires WellFormed(st) && c in st.clients && CurrentRoom(st, c) == Some(r) && r in st.rooms
    requires StartsWith(t, CommandMarker) && st.clients[c].username == Some(st.rooms[r].host)
    ensures var o := Chat(st, c, r, Some(t));
      !o.crashed ==>
        forall r' :: r' in o.st.rooms ==>
          && r' in st.rooms
          && o.st.rooms[r'].messages == (if r' == r && CommandWord(t) == Some("clear") then [] else st.rooms[r'].messages)
  {
    HostLineIsCommand(st, c, r, t);
    if CommandWord(t) == Some("clear") {
      ClearEmptiesLog(st, c, r, t);
    }
  }

  /** A line from the host that starts with `!cmd` goes to `handleCommand` and nowhere else. */
  lemma HostLineIsCommand(st: State, c: ConnId, r: string, t: string)
    requires WellFormed(st) && c in st.clients && CurrentRoom(st, c) == Some(r) && r in st.rooms
    requires StartsWith(t, CommandMarker) && st.clients[c].username == Some(st.rooms[r].host)
    ensures Chat(st, c, r, Some(t)) == Command(st, c, r, t)
  {
    assert t != "";
  }

  /** A host line that starts with `!cmd` but names no known command is answered to the host alone. */
  lemma UnknownCommandAnswersIssuer(st: State, c: ConnId, r: string, t: string)
    requires WellFormed(st) && c in st.clients && r in st.rooms
    requires CommandWord(t) !in {Some("private"), Some("public"), Some("kick"), Some("ban"), Some("shutdown"), Some("clear")}
    ensures Command(st, c, r, t) == Outcome(st, [Send(c, Error(UnknownCommandText))], false)
  {
  }

  /**
   * `private` hides the room from the public list and `public` shows it with
   * its member count; no other room's entry changes, and the refreshed list is
   * the last record sent.
   */
  lemma PrivacyCommands(st: State, c: ConnId, r: string, t: string)
    requires WellFormed(st) && c in st.clients && r in st.rooms
    requires CommandWord(t) == Some("private") || CommandWord(t) == Some("public")
    ensures var o := Command(st, c, r, t);
      var list := PublicRooms(o.st.rooms);
      && !o.crashed
      && o.st.clients == st.clients
      && o.st.rooms == st.rooms[r := st.rooms[r].(isPrivate := CommandWord(t) == Some("private"))]
      && (CommandWord(t) == Some("private") ==> r !in list)
      && (CommandWord(t) == Some("public") ==> r in list && list[r] == |st.rooms[r].users|)
      && (forall r' :: r' != r ==> (r' in list <==> r' in PublicRooms(st.rooms)))
      && (forall r' :: r' != r && r' in list ==> list[r'] == PublicRooms(st.rooms)[r'])
      && |o.out| > 0 && o.out[|o.out| - 1] == SendToAll(RoomList(list))
  {
    var p := CommandWord(t) == Some("private");
    var rooms1 := st.rooms[r := st.rooms[r].(isPrivate := p)];
    PrivacyCommandIs(st, c, r, t);
    VisibilityChange(st.rooms, r, p);
    assert RoomListUpdate(rooms1)[0] == SendToAll(RoomList(PublicRooms(rooms1)));
  }

  /** `private` and `public` set the room's visibility and announce it, then refresh the room list. */
  lemma PrivacyCommandIs(st: State, c: ConnId, r: string, t: string)
    requires WellFormed(st) && c in st.clients && r in st.rooms
    requires CommandWord(t) == Some("private") || CommandWord(t) == Some("public")
    ensures var p := CommandWord(t) == Some("private");
      var room := st.rooms[r];
      var rooms1 := st.rooms[r := room.(isPrivate := p)];
      Command(st, c, r, t) ==
        Outcome(st.(rooms := rooms1),
          Broadcast(rooms1, room.host, RoomStatus(p))
          + Broadcast(rooms1, room.host, SystemMessage(if p then RoomSetPrivate else RoomSetPublic))
          + RoomListUpdate(rooms1),
          false)
  {
  }

  /** Changing one room's visibility changes its own entry of the public list and no other. */
  lemma VisibilityChange(rooms: map<string, Room>, r: string, p: bool)
    requires r in rooms
    ensures var list := PublicRooms(rooms[r := rooms[r].(isPrivate := p)]);
      && (p ==> r !in list)
      && (!p ==> r in list && list[r] == |rooms[r].users|)
      && (forall r' :: r' != r ==> (r' in list <==> r' in PublicRooms(rooms)))
      && (forall r' :: r' != r && r' in list ==> list[r'] == PublicRooms(rooms)[r'])
  {
  }

  /** `clear` empties the room's log and changes nothing else in the tables. */
  lemma ClearEmptiesLog(st: State, c: ConnId, r: string, t: string)
    requires WellFormed(st) && c in st.clients && r in st.rooms
    requires CommandWord(t) == Some("clear")
    ensures var o := Command(st, c, r, t);
      && !o.crashed
      && o.st.clients == st.clients
      && o.st.rooms == st.rooms[r := st.rooms[r].(messages := [])]
  {
  }

  /**
   * The notices of `private`, `public`, `clear`, `kick` and `ban` are broadcast to
   * the room named after the host, whatever room the command was issued in: the
   * records of the three settings commands are exactly those broadcasts (and the
   * room list), and a kick or a ban ends with its notice broadcast there.
   */
  lemma HostKeyedNotices(st: State, c: ConnId, r: string, t: string)
    requires WellFormed(st) && c in st.clients && r in st.rooms
    ensures var o := Command(st, c, r, t);
      var host := st.rooms[r].host;
      var cmd := CommandWord(t);
      var kicked := Broadcast(o.st.rooms, host, SystemMessage(UserKicked(CommandArg(t))));
      var banned := Broadcast(o.st.rooms, host, SystemMessage(UserBanned(CommandArg(t))));
      && (cmd == Some("private") ==>
            o.out == Broadcast(o.st.rooms, host, RoomStatus(true))
                     + Broadcast(o.st.rooms, host, SystemMessage(RoomSetPrivate)) + RoomListUpdate(o.st.rooms))
      && (cmd == Some("public") ==>
            o.out == Broadcast(o.st.rooms, host, RoomStatus(false))
                     + Broadcast(o.st.rooms, host, SystemMessage(RoomSetPublic)) + RoomListUpdate(o.st.rooms))
      && (cmd == Some("clear") ==> o.out == Broadcast(o.st.rooms, host, SystemMessage(MessagesCleared)))
      && (cmd == Some("kick") ==> |o.out| >= |kicked| && o.out[|o.out| - |kicked|..] == kicked)
      && (cmd == Some("ban") ==> |o.out| >= |banned| && o.out[|o.out| - |banned|..] == banned)
  {
  }

  /** The system notice each host-keyed command announces. */
  function CommandNotice(cmd: Option<string>, arg: Option<string>): Notice {
    if cmd == Some("private") then RoomSetPrivate
    else if cmd == Some("public") then RoomSetPublic
    else if cmd == Some("clear") then MessagesCleared
    else if cmd == Some("kick") then UserKicked(arg)
    else UserBanned(arg)
  }

  /**
   * Where the host-keyed notices land. When the host's name is another live
   * room, its members (and no one in the issuing room, for the settings
   * commands) hear them; when no room has the host's name, nobody does:
   * `private` and `public` send only the room list and `clear` sends nothing.
   */
  lemma HostKeyedNoticesGoAstray(st: State, c: ConnId, r: string, t: string)
    requires WellFormed(st) && c in st.clients && r in st.rooms
    requires CommandWord(t) in {Some("private"), Some("public"), Some("clear"), Some("kick"), Some("ban")}
    ensures var o := Command(st, c, r, t);
      var host := st.rooms[r].host;
      var cmd := CommandWord(t);
      var settings := cmd in {Some("private"), Some("public"), Some("clear")};
      && (host in st.rooms && host != r ==>
            forall u :: u in st.rooms[host].users ==> Send(u, SystemMessage(CommandNotice(cmd, CommandArg(t)))) in o.out)
      && (settings && host != r ==>
            forall k :: 0 <= k < |o.out| && o.out[k].Send? ==> o.out[k].to !in st.rooms[r].users)
      && (settings && host !in st.rooms ==>
            o.out == (if cmd == Some("clear") then [] else RoomListUpdate(o.st.rooms)))
  {
    var host := st.rooms[r].host;
    if host in st.rooms && host != r {
      NoticesReachHostRoom(st, c, r, t);
    }
    if CommandWord(t) in {Some("private"), Some("public"), Some("clear")} && host != r {
      SettingsNoticesMissIssuers(st, c, r, t);
    }
  }

  /** When the host's name is another live room, every member of it gets the command's notice. */
  lemma NoticesReachHostRoom(st: State, c: ConnId, r: string, t: string)
    requires WellFormed(st) && c in st.clients && r in st.rooms
    requires CommandWord(t) in {Some("private"), Some("public"), Some("clear"), Some("kick"), Some("ban")}
    requires st.rooms[r].host in st.rooms && st.rooms[r].host != r
    ensures var o := Command(st, c, r, t);
      var host := st.rooms[r].host;
      forall u :: u in st.rooms[host].users ==> Send(u, SystemMessage(CommandNotice(CommandWord(t), CommandArg(t)))) in o.out
  {
    var o := Command(st, c, r, t);
    var host := st.rooms[r].host;
    var cmd := CommandWord(t);
    var e := SystemMessage(CommandNotice(cmd, CommandArg(t)));
    HostKeyedNotices(st, c, r, t);
    assert host in o.st.rooms && o.st.rooms[host] == st.rooms[host];
    var b := Broadcast(o.st.rooms, host, e);
    assert b == Fanout(st.rooms[host].users, e);
    forall u | u in st.rooms[host].users
      ensures Send(u, e) in o.out
    {
      var k :| 0 <= k < |st.rooms[host].users| && st.rooms[host].users[k] == u;
      assert b[k] == Send(u, e);
      if cmd == Some("kick") || cmd == Some("ban") {
        assert o.out[|o.out| - |b| + k] == b[k];
      } else {
        assert b[k] in b;
      }
    }
  }

  /** The settings commands send nothing to the members of the issuing room when the host's name is another room. */
  lemma SettingsNoticesMissIssuers(st: State, c: ConnId, r: string, t: string)
    requires WellFormed(st) && c in st.clients && r in st.rooms
    requires CommandWord(t) in {Some("private"), Some("public"), Some("clear")}
    requires st.rooms[r].host != r
    ensures var o := Command(st, c, r, t);
      forall k :: 0 <= k < |o.out| && o.out[k].Send? ==> o.out[k].to !in st.rooms[r].users
  {
    var o := Command(st, c, r, t);
    var host := st.rooms[r].host;
    SettingsSendToHostRoom(st, c, r, t);
    if CommandWord(t) == Some("clear") {
      ClearEmptiesLog(st, c, r, t);
    } else {
      PrivacyCommands(st, c, r, t);
    }
    if host in o.st.rooms {
      assert o.st.rooms[host] == st.rooms[host];
      MembersDisjoint(st, r, host);
    }
    forall k | 0 <= k < |o.out| && o.out[k].Send?
      ensures o.out[k].to !in st.rooms[r].users
    {
      assert o.out[k] in o.out;
    }
  }

  /** Every send of a settings command goes to a member of the room named after the host. */
  lemma SettingsSendToHostRoom(st: State, c: ConnId, r: string, t: string)
    requires WellFormed(st) && c in st.clients && r in st.rooms
    requires CommandWord(t) in {Some("private"), Some("public"), Some("clear")}
    ensures var o := Command(st, c, r, t);
      var host := st.rooms[r].host;
      forall x :: x in o.out && x.Send? ==> host in o.st.rooms && x.to in o.st.rooms[host].users
  {
    var o := Command(st, c, r, t);
    var host := st.rooms[r].host;
    HostKeyedNotices(st, c, r, t);
    var cmd := CommandWord(t);
    if cmd == Some("clear") {
      BroadcastsReachRoom(o.st.rooms, host, o.out, SystemMessage(MessagesCleared), SystemMessage(MessagesCleared));
    } else if cmd == Some("private") {
      BroadcastsReachRoom(o.st.rooms, host, o.out, RoomStatus(true), SystemMessage(RoomSetPrivate));
    } else {
      BroadcastsReachRoom(o.st.rooms, host, o.out, RoomStatus(false), SystemMessage(RoomSetPublic));
    }
  }

  /** The sends of one broadcast, or of two broadcasts and a room list, all go to members of the room broadcast to. */
  lemma BroadcastsReachRoom(rooms: map<string, Room>, name: string, out: seq<Outbound>, e1: Event, e2: Event)
    requires || out == Broadcast(rooms, name, e1)
             || out == Broadcast(rooms, name, e1) + Broadcast(rooms, name, e2) + RoomListUpdate(rooms)
    ensures forall x :: x in out && x.Send? ==> name in rooms && x.to in rooms[name].users
  {
    forall x | x in out && x.Send?
      ensures name in rooms && x.to in rooms[name].users
    {
      if x in Broadcast(rooms, name, e1) {
        FanoutSendsTo(rooms, name, e1, x);
      } else {
        assert x !in RoomListUpdate(rooms);
        FanoutSendsTo(rooms, name, e2, x);
      }
    }
  }

  /** A send of a broadcast goes to a member of the room it is keyed by. */
  lemma FanoutSendsTo(rooms: map<string, Room>, name: string, e: Event, x: Outbound)
    requires x in Broadcast(rooms, name, e)
    ensures name in rooms && x.Send? && x.to in rooms[name].users
  {
    var b := Broadcast(rooms, name, e);
    var k :| 0 <= k < |b| && b[k] == x;
    assert rooms[name].users[k] in rooms[name].users;
  }

  /** Two different rooms of well-formed tables share no member. */
  lemma MembersDisjoint(st: State, r: string, h: string)
    requires WellFormed(st) && r in st.rooms && h in st.rooms && r != h
    ensures forall u :: u in st.rooms[h].users ==> u !in st.rooms[r].users
  {
    forall u | u in st.rooms[h].users
      ensures u !in st.rooms[r].users
    {
      assert st.clients[u].currentRoom == Some(h);
    }
  }

  /**
   * A kick removes the FIRST member with the target's name and no one else: it is
   * told first, loses its room, and the room survives, holding the members
   * before it and then those after it, exactly when someone else was in it. A
   * name no member has changes nothing.
   */
  lemma KickRemovesFirstNamed(st: State, r: string, target: Option<string>)
    requires WellFormed(st) && r in st.rooms
    ensures var o := Kick(st, r, target);
      var users := st.rooms[r].users;
      var i := FirstNamed(st.clients, users, target);
      && (i == |users| ==> o.st == st)
      && (i < |users| ==>
            && |o.out| > 0 && o.out[0] == Send(users[i], SystemMessage(YouWereKicked))
            && CurrentRoom(o.st, users[i]) == None
            && (r in o.st.rooms <==> |users| > 1)
            && (r in o.st.rooms ==> o.st.rooms[r].users == users[..i] + users[i + 1..])
            && (forall k :: k in st.clients && k != users[i] ==> o.st.clients[k] == st.clients[k]))
  {
    var users := st.rooms[r].users;
    var i := FirstNamed(st.clients, users, target);
    KickIsLeave(st, r, target);
    if i < |users| {
      MemberLeaves(st, r, i);
    }
  }

  /** The member at position `i` of a room leaves it: it loses its room, which survives without it exactly when someone else is in it. */
  lemma MemberLeaves(st: State, r: string, i: nat)
    requires WellFormed(st) && r in st.rooms && i < |st.rooms[r].users|
    ensures var users := st.rooms[r].users;
      var l := Leave(st, users[i]).st;
      && CurrentRoom(l, users[i]) == None
      && (r in l.rooms <==> |users| > 1)
      && (r in l.rooms ==> l.rooms[r].users == users[..i] + users[i + 1..])
      && (forall k :: k in st.clients && k != users[i] ==> l.clients[k] == st.clients[k])
  {
    var users := st.rooms[r].users;
    assert users[i] in users;
    LeaveFromRoom(st, users[i]);
    WithoutAt(users, i);
    OtherMember(users, i);
  }

  /** Someone other than the member at position `i` is in a duplicate-free sequence exactly when it has two or more elements. */
  lemma OtherMember(s: seq<ConnId>, i: nat)
    requires Distinct(s) && i < |s|
    ensures (exists u :: u in s && u != s[i]) <==> |s| > 1
  {
    if |s| > 1 {
      var j := if i == 0 then 1 else 0;
      assert s[j] in s && s[j] != s[i];
    }
  }

  /** A kick is the leave of the first member with the name, preceded by the kick notice; without such a member it changes nothing. */
  lemma KickIsLeave(st: State, r: string, target: Option<string>)
    requires WellFormed(st) && r in st.rooms
    ensures var o := Kick(st, r, target);
      var users := st.rooms[r].users;
      var i := FirstNamed(st.clients, users, target);
      var notice := SystemMessage(UserKicked(target));
      && (i == |users| ==> o.st == st && o.out == Broadcast(st.rooms, st.rooms[r].host, notice))
      && (i < |users| ==>
            && o.st == Leave(st, users[i]).st
            && |o.out| > 0 && o.out[0] == Send(users[i], SystemMessage(YouWereKicked))
            && o.out == [Send(users[i], SystemMessage(YouWereKicked))] + Leave(st, users[i]).out
                        + Broadcast(o.st.rooms, st.rooms[r].host, notice))
  {
  }

  /**
   * A ban bans the name first, then kicks as `kick` does: the first member with
   * the name is told it was kicked and loses its room, which survives, holding
   * the others in order, exactly when someone else was in it; with no such
   * member only the banned set changes.
   */
  lemma BanKicksFirstNamed(st: State, r: string, target: Option<string>)
    requires WellFormed(st) && r in st.rooms
    ensures var o := Ban(st, r, target);
      var room := st.rooms[r];
      var users := room.users;
      var i := FirstNamed(st.clients, users, target);
      var banned := if target.Some? then room.banned + {target.value} else room.banned;
      && (i == |users| ==> o.st == st.(rooms := st.rooms[r := room.(banned := banned)]))
      && (i < |users| ==>
            && |o.out| > 0 && o.out[0] == Send(users[i], SystemMessage(YouWereKicked))
            && CurrentRoom(o.st, users[i]) == None
            && (r in o.st.rooms <==> |users| > 1)
            && (r in o.st.rooms ==> o.st.rooms[r].users == users[..i] + users[i + 1..])
            && (forall k :: k in st.clients && k != users[i] ==> o.st.clients[k] == st.clients[k]))
  {
    var room := st.rooms[r];
    var banned := if target.Some? then room.banned + {target.value} else room.banned;
    var st1 := st.(rooms := st.rooms[r := room.(banned := banned)]);
    SettingsChangeKeepsInvariants(st, r, room.(banned := banned));
    KickRemovesFirstNamed(st1, r, target);
    BanIsKick(st, r, target);
  }

  /** A ban is the kick in the tables where the name is already banned, followed by the ban notice. */
  lemma BanIsKick(st: State, r: string, target: Option<string>)
    requires WellFormed(st) && r in st.rooms
    ensures var room := st.rooms[r];
      var banned := if target.Some? then room.banned + {target.value} else room.banned;
      var st1 := st.(rooms := st.rooms[r := room.(banned := banned)]);
      WellFormed(st1) &&
      var k := Kick(st1, r, target);
      var o := Ban(st, r, target);
      && o.st == k.st
      && |o.out| >= |k.out| && o.out[..|k.out|] == k.out
      && o.out == k.out + Broadcast(k.st.rooms, room.host, SystemMessage(UserBanned(target)))
  {
    var room := st.rooms[r];
    var banned := if target.Some? then room.banned + {target.value} else room.banned;
    SettingsChangeKeepsInvariants(st, r, room.(banned := banned));
  }

  /** When `currentRoom` and `users` agree, a kick and a ban keep them in agreement. */
  lemma KickBanKeepConsistent(st: State, r: string, target: Option<string>)
    requires WellFormed(st) && RoomsAgree(st) && r in st.rooms
    ensures RoomsAgree(Kick(st, r, target).st) && RoomsAgree(Ban(st, r, target).st)
    ensures Consistent(st) ==> Consistent(Kick(st, r, target).st) && Consistent(Ban(st, r, target).st)
  {
    KickKeepsAgreement(st, r, target);
    var room := st.rooms[r];
    if target.Some? {
      var st1 := st.(rooms := st.rooms[r := room.(banned := room.banned + {target.value})]);
      SettingsChangeKeepsInvariants(st, r, room.(banned := room.banned + {target.value}));
      KickKeepsAgreement(st1, r, target);
    }
  }

  /** A kick, when `currentRoom` and `users` agree, keeps them in agreement. */
  lemma KickKeepsAgreement(st: State, r: string, target: Option<string>)
    requires WellFormed(st) && RoomsAgree(st) && r in st.rooms
    ensures RoomsAgree(Kick(st, r, target).st)
  {
    var users := st.rooms[r].users;
    var i := FirstNamed(st.clients, users, target);
    if i < |users| {
      LeaveKeepsConsistent(st, users[i]);
    }
  }

  /** After a ban, a connection with the banned name that asks to join the room is refused. */
  lemma BanThenJoinRefused(st: State, r: string, name: string, d: ConnId)
    requires WellFormed(st) && r in st.rooms
    requires var o := Ban(st, r, Some(name));
      r in o.st.rooms && d in o.st.clients && o.st.clients[d].username == Some(name)
    ensures var o := Ban(st, r, Some(name));
      var j := Join(o.st, d, r);
      && name in o.st.rooms[r].banned
      && (!j.crashed ==> CurrentRoom(j.st, d) == None && d !in j.st.rooms[r].users)
  {
  }

  /**
   * The loop of a shutdown: every member leaves in turn without a throw, the
   * last leave deletes the room, and no other room and no other session
   * changes; agreement between `currentRoom` and `users` is kept.
   */
  lemma {:induction false} ShutdownLoopEmptiesRoom(st: State, out: seq<Outbound>, r: string, members: seq<ConnId>)
    requires WellFormed(st) && r in st.rooms && st.rooms[r].users == members && members != []
    ensures var o := ShutdownLoop(st, out, members);
      && !o.crashed
      && (RoomsAgree(st) ==> RoomsAgree(o.st))
      && o.st.rooms == st.rooms - {r}
      && (forall u :: u in members ==> CurrentRoom(o.st, u) == None)
      && (forall k :: k in st.clients && k !in members ==> o.st.clients[k] == st.clients[k])
    decreases |members|
  {
    var m := members[0];
    var l := Leave(st, m);
    FirstMemberLeaves(st, r);
    if RoomsAgree(st) {
      LeaveKeepsConsistent(st, m);
    }
    var out1 := out + [Send(m, SystemMessage(ShuttingDown))] + l.out;
    assert ShutdownLoop(st, out, members) == ShutdownLoop(l.st, out1, members[1..]);
    if |members| > 1 {
      ShutdownLoopEmptiesRoom(l.st, out1, r, members[1..]);
      assert m !in members[1..];
    }
  }

  /**
   * The records of the shutdown loop: those already sent stay in front, and
   * when no leave throws, every member is sent "Room is shutting down".
   */
  lemma {:induction false} ShutdownLoopNotifies(st: State, out: seq<Outbound>, members: seq<ConnId>)
    requires WellFormed(st)
    ensures var o := ShutdownLoop(st, out, members);
      && |o.out| >= |out| && o.out[..|out|] == out
      && (!o.crashed ==> forall u :: u in members ==> Send(u, SystemMessage(ShuttingDown)) in o.out)
    decreases |members|
  {
    if members != [] {
      var m := members[0];
      var l := Leave(st, m);
      var out1 := out + [Send(m, SystemMessage(ShuttingDown))] + l.out;
      assert out1[..|out|] == out && out1[|out|] == Send(m, SystemMessage(ShuttingDown));
      if !l.crashed {
        var o := ShutdownLoop(l.st, out1, members[1..]);
        ShutdownLoopNotifies(l.st, out1, members[1..]);
        assert o.out[..|out1|] == out1;
        assert o.out[..|out|] == out1[..|out|];
        assert o.out[|out|] in o.out;
      }
    }
  }

  /** One step of the shutdown loop: the first member leaves, and the others stay in order. */
  lemma FirstMemberLeaves(st: State, r: string)
    requires WellFormed(st) && r in st.rooms && st.rooms[r].users != []
    ensures var members := st.rooms[r].users;
      var l := Leave(st, members[0]);
      && !l.crashed
      && WellFormed(l.st)
      && CurrentRoom(l.st, members[0]) == None
      && (forall k :: k in st.clients && k != members[0] ==> l.st.clients[k] == st.clients[k])
      && (|members| == 1 ==> l.st.rooms == st.rooms - {r})
      && (|members| > 1 ==> r in l.st.rooms && l.st.rooms[r].users == members[1..] && l.st.rooms - {r} == st.rooms - {r})
  {
    var members := st.rooms[r].users;
    var m := members[0];
    assert m in st.rooms[r].users;
    assert CurrentRoom(st, m) == Some(r);
    var l := Leave(st, m);
    LeaveIsDepart(st, m);
    DepartTables(st, m, r);
    WithoutHead(members);
    if |members| == 1 {
      assert members == [m];
      assert l.st.rooms == st.rooms - {r};
    } else {
      assert members[1] in members && members[1] != m;
      assert l.st.rooms - {r} == st.rooms - {r};
    }
  }

  /**
   * `shutdown` of a room with members, in well-formed tables (every reachable
   * state, collisions included): no throw, every member is told the room is
   * shutting down and ends in no room, and the rooms left are all but the shut
   * room and the room named after its host. When `currentRoom` and `users`
   * agreed, they still agree unless that host-named room is another, live room.
   */
  lemma ShutdownClosesRoom(st: State, r: string)
    requires WellFormed(st) && r in st.rooms && st.rooms[r].users != []
    ensures var o := Shutdown(st, r);
      var room := st.rooms[r];
      && !o.crashed
      && o.st.rooms == st.rooms - {r} - {room.host}
      && (forall u :: u in room.users ==> CurrentRoom(o.st, u) == None)
      && (forall u :: u in room.users ==> Send(u, SystemMessage(ShuttingDown)) in o.out)
      && (forall k :: k in st.clients && k !in room.users ==> o.st.clients[k] == st.clients[k])
      && |o.out| > 0 && o.out[|o.out| - 1] == SendToAll(RoomList(PublicRooms(o.st.rooms)))
      && (Consistent(st) && (room.host == r || room.host !in st.rooms) ==> Consistent(o.st))
  {
    var room := st.rooms[r];
    ShutdownLoopEmptiesRoom(st, [], r, room.users);
    ShutdownLoopNotifies(st, [], room.users);
    var l := ShutdownLoop(st, [], room.users);
    var o := Shutdown(st, r);
    assert o.out == l.out + RoomListUpdate(o.st.rooms);
    if room.host == r || room.host !in st.rooms {
      assert o.st.rooms == l.st.rooms;
    }
  }
}
