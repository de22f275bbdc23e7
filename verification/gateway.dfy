/**
 * The connection handlers of server.js: registration on `connection`, the
 * `switch (data.type)` dispatcher for each inbound record, and the `close`
 * handler.
 */
module Gateway {
  import opened Wrappers
  import opened Protocol
  import opened RoomState
  import opened Lifecycle
  import opened Moderation

  /** `clients.set(ws, { username: null, currentRoom: null })` for a new connection. */
  function Connect(st: State, c: ConnId): (st': State)
    requires c !in st.clients
    ensures st'.clients == st.clients[c := FreshSession] && st'.rooms == st.rooms
    ensures st'.clients.Keys == st.clients.Keys + {c}
    ensures WellFormed(st) ==> WellFormed(st')
    ensures Valid(st) ==> Valid(st')
    ensures Consistent(st) ==> Consistent(st')
  {
    State(st.clients[c := FreshSession], st.rooms)
  }

  /** `clientData.username = data.username`: any non-empty name, at any time, replacing the old one. */
  function Rename(st: State, c: ConnId, name: string): (st': State)
    requires WellFormed(st) && c in st.clients && name != ""
    ensures st'.clients == st.clients[c := st.clients[c].(username := Some(name))] && st'.rooms == st.rooms
    ensures st'.clients.Keys == st.clients.Keys
    ensures WellFormed(st')
  {
    var st' := st.(clients := st.clients[c := st.clients[c].(username := Some(name))]);
    assert forall k :: k in st'.clients && k != c ==> st'.clients[k] == st.clients[k];
    st'
  }

  /** `chatRooms[n] = { host, users: new Set(), ... }`: a room with no members is added. */
  function AddRoom(st: State, n: string, host: string): (st1: State)
    requires WellFormed(st) && n != "" && n !in st.rooms
    ensures WellFormed(st1) && st1.clients == st.clients
    ensures st1.rooms == st.rooms[n := NewRoom(host)]
  {
    var st1 := st.(rooms := st.rooms[n := NewRoom(host)]);
    assert forall r :: r in st1.rooms && r != n ==> st1.rooms[r] == st.rooms[r];
    st1
  }

  /**
   * The success path of `create_room`: a new room with the creator as host,
   * then `joinRoom` for the creator, then a room-list refresh.
   */
  function Create(st: State, c: ConnId, n: string): (o: Outcome)
    requires WellFormed(st) && c in st.clients && st.clients[c].username.Some?
    requires n != "" && n !in st.rooms
    ensures o.st.clients.Keys == st.clients.Keys
    ensures !o.crashed ==> WellFormed(o.st) && NoNewEmptyRoom(st, o.st)
  {
    var j := Join(AddRoom(st, n, st.clients[c].username.value), c, n);
    if j.crashed then j
    else Outcome(j.st, j.out + RoomListUpdate(j.st.rooms), false)
  }

  /** An error record to the sender only, with nothing else changed. */
  function Reply(st: State, c: ConnId, message: string): Outcome {
    Outcome(st, [Send(c, Error(message))], false)
  }

  /**
   * The `message` handler: one inbound record from connection `c`. The checks
   * run in the order of the source: a session name before a room name, a room
   * name before the room's existence.
   */
  function Dispatch(st: State, c: ConnId, ev: Inbound): (o: Outcome)
    requires WellFormed(st) && c in st.clients
    ensures o.st.clients.Keys == st.clients.Keys
    ensures !o.crashed ==> WellFormed(o.st) && NoNewEmptyRoom(st, o.st)
    ensures !o.crashed && Valid(st) ==> Valid(o.st)
  {
    var cd := st.clients[c];
    match ev
    case InvalidJson => Reply(st, c, InvalidJsonText)
    case SetUsername(u) =>
      if u.None? || u.value == "" then Reply(st, c, InvalidUsernameText)
      else Outcome(Rename(st, c, u.value), [], false)
    case CreateRoom(n) =>
      if cd.username.None? then Reply(st, c, SetUsernameFirstText)
      else if n.None? || n.value == "" then Reply(st, c, InvalidRoomNameText)
      else if n.value in st.rooms then Reply(st, c, RoomExistsText)
      else Create(st, c, n.value)
    case ListRooms => Outcome(st, [Send(c, RoomList(PublicRooms(st.rooms)))], false)
    case JoinRoom(n) =>
      if cd.username.None? then Reply(st, c, SetUsernameFirstText)
      else if n.None? || n.value == "" || n.value !in st.rooms then Reply(st, c, RoomNotFoundText)
      else Join(st, c, n.value)
    case ChatText(t) =>
      if cd.currentRoom.None? then Reply(st, c, JoinRoomFirstText)
      else Chat(st, c, cd.currentRoom.value, t)
    case LeaveRoom => Leave(st, c)
    case UnknownType => Reply(st, c, UnknownCommandText)
  }

  /** The `close` handler: leave the current room, then forget the connection. */
  function Close(st: State, c: ConnId): (o: Outcome)
    requires WellFormed(st) && c in st.clients
    ensures !o.crashed ==> o.st.clients.Keys == st.clients.Keys - {c}
    ensures !o.crashed ==> WellFormed(o.st) && NoNewEmptyRoom(st, o.st)
    ensures !o.crashed && Valid(st) ==> Valid(o.st)
  {
    var l := Leave(st, c);
    if l.crashed then l
    else Outcome(l.st.(clients := l.st.clients - {c}), l.out, false)
  }
}
