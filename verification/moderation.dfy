/**
 * Chat lines and the host's in-band commands: `handleChatMessage`,
 * `handleCommand`, `kickUserFromRoom`, `banUserFromRoom` and `shutdownRoom`.
 *
 * The notices after `private`, `public`, `clear`, `kick` and `ban` are broadcast
 * to the room named after the HOST'S USERNAME (`broadcast(room.host, ...)`), and
 * `shutdown` deletes the room named after the host; both are modelled as written.
 */
module Moderation {
  import opened Wrappers
  import opened Protocol
  import opened Text
  import opened RoomState
  import opened Lifecycle

  /** `clients.get(ws).username === username`, for a target that may be undefined. */
  predicate Named(clients: map<ConnId, ClientData>, u: ConnId, target: Option<string>) {
    u in clients && target.Some? && clients[u].username == target
  }

  /**
   * The position where `for (const ws of room.users)` stops: the first member
   * with the target's name, or the length when there is none.
   */
  function FirstNamed(clients: map<ConnId, ClientData>, users: seq<ConnId>, target: Option<string>): (i: nat)
    ensures i <= |users|
    ensures i < |users| ==> Named(clients, users[i], target)
    ensures forall k :: 0 <= k < i ==> !Named(clients, users[k], target)
  {
    if users == [] then 0
    else if Named(clients, users[0], target) then 0
    else 1 + FirstNamed(clients, users[1..], target)
  }

  /**
   * `kickUserFromRoom(room, username)`: the first member with that name is told it
   * was kicked and leaves; then the kick notice goes to the room named after the host.
   */
  function Kick(st: State, r: string, target: Option<string>): (o: Outcome)
    requires WellFormed(st) && r in st.rooms
    ensures SameSessions(st, o.st)
    ensures !o.crashed
    ensures WellFormed(o.st) && NoNewEmptyRoom(st, o.st)
    ensures o.st.rooms.Keys <= st.rooms.Keys
    ensures forall r' :: r' in st.rooms && r' != r ==> r' in o.st.rooms && o.st.rooms[r'] == st.rooms[r']
    ensures OnlyMembershipChanged(st, o.st)
  {
    var room := st.rooms[r];
    var i := FirstNamed(st.clients, room.users, target);
    var kicked :=
      if i < |room.users| then
        var l := Leave(st, room.users[i]);
        Outcome(l.st, [Send(room.users[i], SystemMessage(YouWereKicked))] + l.out, l.crashed)
      else Outcome(st, [], false);
    if kicked.crashed then kicked
    else Outcome(kicked.st, kicked.out + Broadcast(kicked.st.rooms, room.host, SystemMessage(UserKicked(target))), false)
  }

  /** `banUserFromRoom(room, username)`: add the name to the room's banned set, kick, announce to the host-named room. */
  function Ban(st: State, r: string, target: Option<string>): (o: Outcome)
    requires WellFormed(st) && r in st.rooms
    ensures SameSessions(st, o.st)
    ensures !o.crashed
    ensures WellFormed(o.st) && NoNewEmptyRoom(st, o.st)
    ensures o.st.rooms.Keys <= st.rooms.Keys && LogsKept(st, o.st)
    ensures forall r' :: r' in st.rooms && r' != r ==> r' in o.st.rooms && o.st.rooms[r'] == st.rooms[r']
    ensures r in o.st.rooms ==>
      o.st.rooms[r].banned == st.rooms[r].banned + (if target.Some? then {target.value} else {})
    ensures r in o.st.rooms ==>
      o.st.rooms[r] == st.rooms[r].(banned := o.st.rooms[r].banned, users := o.st.rooms[r].users)
  {
    var room := st.rooms[r];
    var banned := if target.Some? then room.banned + {target.value} else room.banned;
    var st1 := st.(rooms := st.rooms[r := room.(banned := banned)]);
    SettingsChangeKeepsInvariants(st, r, room.(banned := banned));
    var k := Kick(st1, r, target);
    assert LogsKept(st, k.st);
    if k.crashed then k
    else Outcome(k.st, k.out + Broadcast(k.st.rooms, room.host, SystemMessage(UserBanned(target))), false)
  }

  /**
   * The loop of `shutdownRoom`, `room.users.forEach(ws => { notify; leaveRoom(ws) })`,
   * over the members still to visit, with the records sent so far.
   */
  function ShutdownLoop(st: State, out: seq<Outbound>, members: seq<ConnId>): (o: Outcome)
    requires WellFormed(st)
    ensures SameSessions(st, o.st)
    ensures !o.crashed ==> WellFormed(o.st) && NoNewEmptyRoom(st, o.st) && o.st.rooms.Keys <= st.rooms.Keys
    ensures !o.crashed ==> OnlyMembershipChanged(st, o.st)
    decreases |members|
  {
    if members == [] then Outcome(st, out, false)
    else
      var l := Leave(st, members[0]);
      var out1 := out + [Send(members[0], SystemMessage(ShuttingDown))] + l.out;
      if l.crashed then Outcome(l.st, out1, true)
      else ShutdownLoop(l.st, out1, members[1..])
  }

  /**
   * `shutdownRoom(room)`: every member is told and leaves (the last leave deletes
   * the room); then the room NAMED AFTER THE HOST is deleted, and the room list
   * is refreshed.
   */
  function Shutdown(st: State, r: string): (o: Outcome)
    requires WellFormed(st) && r in st.rooms
    ensures SameSessions(st, o.st)
    ensures !o.crashed ==> WellFormed(o.st) && NoNewEmptyRoom(st, o.st) && o.st.rooms.Keys <= st.rooms.Keys
    ensures !o.crashed ==> OnlyMembershipChanged(st, o.st)
  {
    var room := st.rooms[r];
    var l := ShutdownLoop(st, [], room.users);
    if l.crashed then l
    else
      var rooms1 := l.st.rooms - {room.host};
      DeleteRoomWellFormed(l.st, room.host);
      Outcome(l.st.(rooms := rooms1), l.out + RoomListUpdate(rooms1), false)
  }

  /** `delete chatRooms[name]` keeps the tables well formed, whatever the room held. */
  lemma DeleteRoomWellFormed(st: State, name: string)
    requires WellFormed(st)
    ensures WellFormed(st.(rooms := st.rooms - {name}))
    ensures NoNewEmptyRoom(st, st.(rooms := st.rooms - {name}))
  {
    var st1 := st.(rooms := st.rooms - {name});
    assert forall r :: r in st1.rooms ==> r in st.rooms && st1.rooms[r] == st.rooms[r];
  }

  /**
   * `handleCommand(ws, room, text)`: dispatch on `text.split(' ')[1]`. An
   * unknown or missing command word is answered with an error to the issuer only.
   */
  function Command(st: State, c: ConnId, r: string, text: string): (o: Outcome)
    requires WellFormed(st) && c in st.clients && r in st.rooms
    ensures SameSessions(st, o.st)
    ensures !o.crashed ==> WellFormed(o.st) && NoNewEmptyRoom(st, o.st) && o.st.rooms.Keys <= st.rooms.Keys
    ensures !o.crashed && CommandWord(text) != Some("clear") ==> LogsKept(st, o.st)
  {
    var room := st.rooms[r];
    var cmd := CommandWord(text);
    if cmd == Some("private") then
      var rooms1 := st.rooms[r := room.(isPrivate := true)];
      SettingsChangeKeepsInvariants(st, r, room.(isPrivate := true));
      Outcome(st.(rooms := rooms1),
        Broadcast(rooms1, room.host, RoomStatus(true))
        + Broadcast(rooms1, room.host, SystemMessage(RoomSetPrivate))
        + RoomListUpdate(rooms1),
        false)
    else if cmd == Some("public") then
      var rooms1 := st.rooms[r := room.(isPrivate := false)];
      SettingsChangeKeepsInvariants(st, r, room.(isPrivate := false));
      Outcome(st.(rooms := rooms1),
        Broadcast(rooms1, room.host, RoomStatus(false))
        + Broadcast(rooms1, room.host, SystemMessage(RoomSetPublic))
        + RoomListUpdate(rooms1),
        false)
    else if cmd == Some("kick") then Kick(st, r, CommandArg(text))
    else if cmd == Some("ban") then Ban(st, r, CommandArg(text))
    else if cmd == Some("shutdown") then Shutdown(st, r)
    else if cmd == Some("clear") then
      var rooms1 := st.rooms[r := room.(messages := [])];
      SettingsChangeKeepsInvariants(st, r, room.(messages := []));
      Outcome(st.(rooms := rooms1), Broadcast(rooms1, room.host, SystemMessage(MessagesCleared)), false)
    else
      Outcome(st, [Send(c, Error(UnknownCommandText))], false)
  }

  /**
   * `handleChatMessage(ws, roomName, text)`: nothing when the room is gone or the
   * text is missing, not a string or empty; a line starting with `!cmd` from the
   * room's host is a command; any other line is logged and broadcast to the room.
   */
  function Chat(st: State, c: ConnId, r: string, text: Option<string>): (o: Outcome)
    requires WellFormed(st) && c in st.clients && CurrentRoom(st, c) == Some(r)
    ensures SameSessions(st, o.st)
    ensures !o.crashed ==> WellFormed(o.st) && NoNewEmptyRoom(st, o.st) && o.st.rooms.Keys <= st.rooms.Keys
  {
    if r !in st.rooms then Outcome(st, [], false)
    else if text.None? || text.value == "" then Outcome(st, [], false)
    else
      var room := st.rooms[r];
      var cd := st.clients[c];
      var t := text.value;
      if StartsWith(t, CommandMarker) && cd.username == Some(room.host) then Command(st, c, r, t)
      else
        var name := cd.username.value;
        var rooms1 := st.rooms[r := room.(messages := room.messages + [ChatLine(name, t)])];
        Outcome(st.(rooms := rooms1), Broadcast(rooms1, r, Message(name, t, name == room.host)), false)
  }
}
