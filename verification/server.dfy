/**
 * The server as the source runs it: one object holding the two mutable tables,
 * `clients` and `chatRooms`, whose handlers update them in place, one inbound
 * event at a time. Each handler returns the records it sent and whether it threw.
 * Every method is proved to do exactly what the function of the same name in
 * `Lifecycle`, `Moderation` or `Gateway` describes, so the lemmas proved about
 * those functions hold of this object.
 */
module Server {
  import opened Wrappers
  import opened Protocol
  import opened Text
  import opened RoomState
  import opened Lifecycle
  import opened Moderation
  import opened Gateway

  class ChatServer {
    /** `ws -> { username, currentRoom }` */
    var clients: map<ConnId, ClientData>
    /** `roomName -> { host, users, isPrivate, banned, messages }` */
    var chatRooms: map<string, Room>

    /** The two tables as one value. */
    function St(): State
      reads this
    {
      State(clients, chatRooms)
    }

    constructor ()
      ensures St() == Empty
    {
      clients := map[];
      chatRooms := map[];
    }

    /** `broadcast(roomName, data)`: one send per member, in member order; nothing for an unknown room. */
    method Broadcast(roomName: string, e: Event) returns (out: seq<Outbound>)
      ensures out == RoomState.Broadcast(chatRooms, roomName, e)
    {
      out := [];
      if roomName !in chatRooms {
        return;
      }
      var users := chatRooms[roomName].users;
      var i := 0;
      while i < |users|
        invariant 0 <= i <= |users|
        invariant |out| == i
        invariant forall k :: 0 <= k < i ==> out[k] == Send(users[k], e)
      {
        out := out + [Send(users[i], e)];
        i := i + 1;
      }
    }

    /** `leaveRoom(ws)` */
    method LeaveRoom(ws: ConnId) returns (out: seq<Outbound>, crashed: bool)
      requires WellFormed(St())
      modifies this
      ensures Outcome(St(), out, crashed) == Leave(old(St()), ws)
    {
      out, crashed := [], false;
      if ws !in clients || clients[ws].currentRoom.None? {
        return;
      }
      var clientData := clients[ws];
      var roomName := clientData.currentRoom.value;
      if roomName !in chatRooms {
        crashed := true;
        return;
      }
      ghost var before := St();
      var room := chatRooms[roomName];
      chatRooms := chatRooms[roomName := room.(users := Without(room.users, ws))];
      out := Broadcast(roomName, SystemMessage(UserLeft(clientData.username.value)));
      var emptied := chatRooms[roomName].users == [];
      if emptied {
        chatRooms := chatRooms - {roomName};
        out := out + RoomListUpdate(chatRooms);
      }
      clients := clients[ws := clientData.(currentRoom := None)];
      assert St() == Depart(before, ws, roomName);
    }

    /** `room.messages.forEach(msg => ws.send(...))`: the log, in order, to the joiner. */
    method ReplayLog(ws: ConnId, log: seq<ChatLine>, host: string) returns (out: seq<Outbound>)
      ensures out == Replay(ws, log, host)
    {
      out := [];
      var i := 0;
      while i < |log|
        invariant 0 <= i <= |log|
        invariant out == Replay(ws, log[..i], host)
      {
        var msg := log[i];
        assert Replay(ws, log[..i + 1], host)
            == Replay(ws, log[..i], host) + [Send(ws, Message(msg.user, msg.text, msg.user == host))];
        out := out + [Send(ws, Message(msg.user, msg.text, msg.user == host))];
        i := i + 1;
      }
      assert log[..i] == log;
    }

    /** `joinRoom(ws, roomName)`, including the replay of the room's log to the joiner. */
    method JoinRoom(ws: ConnId, roomName: string) returns (out: seq<Outbound>, crashed: bool)
      requires WellFormed(St()) && ws in clients && clients[ws].username.Some? && roomName in chatRooms
      modifies this
      ensures Outcome(St(), out, crashed) == Join(old(St()), ws, roomName)
    {
      out, crashed := [], false;
      if clients[ws].currentRoom.Some? {
        out, crashed := LeaveRoom(ws);
        if crashed {
          return;
        }
      }
      if roomName !in chatRooms {
        crashed := true;
        return;
      }
      var room := chatRooms[roomName];
      var clientData := clients[ws];
      var name := clientData.username.value;
      if name in room.banned {
        out := out + [Send(ws, Error(BannedText))];
        return;
      }
      ghost var before := St();
      clients := clients[ws := clientData.(currentRoom := Some(roomName))];
      chatRooms := chatRooms[roomName := room.(users := Insert(room.users, ws))];
      assert St() == AddMember(before, ws, roomName);
      out := out + [Send(ws, JoinedRoom(roomName, room.host == name)), Send(ws, RoomStatus(room.isPrivate))];
      var replay := ReplayLog(ws, room.messages, room.host);
      out := out + replay;
      var joined := Broadcast(roomName, SystemMessage(UserJoined(name)));
      out := out + joined + RoomListUpdate(chatRooms);
    }

    /** `kickUserFromRoom(room, username)`: the `for ... of` loop stops at the first member with that name. */
    method KickUserFromRoom(roomName: string, username: Option<string>) returns (out: seq<Outbound>, crashed: bool)
      requires WellFormed(St()) && roomName in chatRooms
      modifies this
      ensures Outcome(St(), out, crashed) == Kick(old(St()), roomName, username)
    {
      var room := chatRooms[roomName];
      out, crashed := [], false;
      var i := 0;
      while i < |room.users|
        invariant 0 <= i <= |room.users|
        invariant St() == old(St()) && out == []
        invariant forall k :: 0 <= k < i ==> !Named(clients, room.users[k], username)
      {
        var ws := room.users[i];
        if ws in clients && username.Some? && clients[ws].username == username {
          assert i == FirstNamed(clients, room.users, username);
          var left;
          left, crashed := LeaveRoom(ws);
          out := [Send(ws, SystemMessage(YouWereKicked))] + left;
          if crashed {
            return;
          }
          break;
        }
        i := i + 1;
      }
      var notice := Broadcast(room.host, SystemMessage(UserKicked(username)));
      out := out + notice;
    }

    /** `banUserFromRoom(room, username)` */
    method BanUserFromRoom(roomName: string, username: Option<string>) returns (out: seq<Outbound>, crashed: bool)
      requires WellFormed(St()) && roomName in chatRooms
      modifies this
      ensures Outcome(St(), out, crashed) == Ban(old(St()), roomName, username)
    {
      var room := chatRooms[roomName];
      if username.Some? {
        chatRooms := chatRooms[roomName := room.(banned := room.banned + {username.value})];
      }
      out, crashed := KickUserFromRoom(roomName, username);
      if crashed {
        return;
      }
      var notice := Broadcast(room.host, SystemMessage(UserBanned(username)));
      out := out + notice;
    }

    /** `shutdownRoom(room)`: notify and remove every member, then delete the room named after the host. */
    method ShutdownRoom(roomName: string) returns (out: seq<Outbound>, crashed: bool)
      requires WellFormed(St()) && roomName in chatRooms
      modifies this
      ensures Outcome(St(), out, crashed) == Shutdown(old(St()), roomName)
    {
      var room := chatRooms[roomName];
      var members := room.users;
      out, crashed := [], false;
      var i := 0;
      while i < |members|
        invariant 0 <= i <= |members|
        invariant WellFormed(St())
        invariant ShutdownLoop(St(), out, members[i..]) == ShutdownLoop(old(St()), [], members)
      {
        var ws := members[i];
        assert members[i..][0] == ws && members[i..][1..] == members[i + 1..];
        out := out + [Send(ws, SystemMessage(ShuttingDown))];
        var left;
        left, crashed := LeaveRoom(ws);
        out := out + left;
        if crashed {
          return;
        }
        i := i + 1;
      }
      chatRooms := chatRooms - {room.host};
      out := out + RoomListUpdate(chatRooms);
    }

    /** `handleCommand(ws, room, text)` for the room `roomName`. */
    method HandleCommand(ws: ConnId, roomName: string, text: string) returns (out: seq<Outbound>, crashed: bool)
      requires WellFormed(St()) && ws in clients && roomName in chatRooms
      modifies this
      ensures Outcome(St(), out, crashed) == Command(old(St()), ws, roomName, text)
    {
      var room := chatRooms[roomName];
      var args := Split(text);
      var cmd := if |args| > 1 then Some(args[1]) else None;
      var arg := if |args| > 2 then Some(args[2]) else None;
      out, crashed := [], false;
      if cmd == Some("private") {
        chatRooms := chatRooms[roomName := room.(isPrivate := true)];
        var status := Broadcast(room.host, RoomStatus(true));
        var notice := Broadcast(room.host, SystemMessage(RoomSetPrivate));
        out := status + notice + RoomListUpdate(chatRooms);
      } else if cmd == Some("public") {
        chatRooms := chatRooms[roomName := room.(isPrivate := false)];
        var status := Broadcast(room.host, RoomStatus(false));
        var notice := Broadcast(room.host, SystemMessage(RoomSetPublic));
        out := status + notice + RoomListUpdate(chatRooms);
      } else if cmd == Some("kick") {
        out, crashed := KickUserFromRoom(roomName, arg);
      } else if cmd == Some("ban") {
        out, crashed := BanUserFromRoom(roomName, arg);
      } else if cmd == Some("shutdown") {
        out, crashed := ShutdownRoom(roomName);
      } else if cmd == Some("clear") {
        chatRooms := chatRooms[roomName := room.(messages := [])];
        out := Broadcast(room.host, SystemMessage(MessagesCleared));
      } else {
        out := [Send(ws, Error(UnknownCommandText))];
      }
    }

    /** `handleChatMessage(ws, roomName, text)` */
    method HandleChatMessage(ws: ConnId, roomName: string, text: Option<string>) returns (out: seq<Outbound>, crashed: bool)
      requires WellFormed(St()) && ws in clients && CurrentRoom(St(), ws) == Some(roomName)
      modifies this
      ensures Outcome(St(), out, crashed) == Chat(old(St()), ws, roomName, text)
    {
      out, crashed := [], false;
      if roomName !in chatRooms {
        return;
      }
      var room := chatRooms[roomName];
      if text.None? || text.value == "" {
        return;
      }
      var t := text.value;
      var clientData := clients[ws];
      if StartsWith(t, CommandMarker) && clientData.username == Some(room.host) {
        out, crashed := HandleCommand(ws, roomName, t);
        return;
      }
      var name := clientData.username.value;
      chatRooms := chatRooms[roomName := room.(messages := room.messages + [ChatLine(name, t)])];
      out := Broadcast(roomName, Message(name, t, name == room.host));
    }

    /** `wss.on('connection')`: register the new connection with an empty session. */
    method OnConnection(ws: ConnId)
      requires ws !in clients
      modifies this
      ensures St() == Connect(old(St()), ws)
    {
      clients := clients[ws := FreshSession];
    }

    /** `ws.on('message')`: the `switch (data.type)` dispatcher. */
    method OnMessage(ws: ConnId, data: Inbound) returns (out: seq<Outbound>, crashed: bool)
      requires WellFormed(St()) && ws in clients
      modifies this
      ensures Outcome(St(), out, crashed) == Dispatch(old(St()), ws, data)
    {
      out, crashed := [], false;
      var clientData := clients[ws];
      match data {
        case InvalidJson =>
          out := [Send(ws, Error(InvalidJsonText))];
        case SetUsername(username) =>
          if username.None? || username.value == "" {
            out := [Send(ws, Error(InvalidUsernameText))];
            return;
          }
          clients := clients[ws := clientData.(username := username)];
        case CreateRoom(roomName) =>
          if clientData.username.None? {
            out := [Send(ws, Error(SetUsernameFirstText))];
            return;
          }
          if roomName.None? || roomName.value == "" {
            out := [Send(ws, Error(InvalidRoomNameText))];
            return;
          }
          if roomName.value in chatRooms {
            out := [Send(ws, Error(RoomExistsText))];
            return;
          }
          ghost var before := St();
          chatRooms := chatRooms[roomName.value := NewRoom(clientData.username.value)];
          assert forall r :: r in chatRooms && r != roomName.value ==> chatRooms[r] == before.rooms[r];
          out, crashed := JoinRoom(ws, roomName.value);
          if crashed {
            return;
          }
          out := out + RoomListUpdate(chatRooms);
        case ListRooms =>
          out := [Send(ws, RoomList(PublicRooms(chatRooms)))];
        case JoinRoom(roomName) =>
          if clientData.username.None? {
            out := [Send(ws, Error(SetUsernameFirstText))];
            return;
          }
          if roomName.None? || roomName.value == "" || roomName.value !in chatRooms {
            out := [Send(ws, Error(RoomNotFoundText))];
            return;
          }
          out, crashed := JoinRoom(ws, roomName.value);
        case ChatText(text) =>
          if clientData.currentRoom.None? {
            out := [Send(ws, Error(JoinRoomFirstText))];
            return;
          }
          out, crashed := HandleChatMessage(ws, clientData.currentRoom.value, text);
        case LeaveRoom =>
          out, crashed := LeaveRoom(ws);
        case UnknownType =>
          out := [Send(ws, Error(UnknownCommandText))];
      }
    }

    /** `ws.on('close')`: leave the current room, then forget the connection. */
    method OnClose(ws: ConnId) returns (out: seq<Outbound>, crashed: bool)
      requires WellFormed(St()) && ws in clients
      modifies this
      ensures Outcome(St(), out, crashed) == Close(old(St()), ws)
    {
      out, crashed := LeaveRoom(ws);
      if crashed {
        return;
      }
      clients := clients - {ws};
    }
  }
}
