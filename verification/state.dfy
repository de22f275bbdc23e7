/**
 * The two tables of the server, `clients` (connection -> session) and `chatRooms`
 * (room name -> room), as one value, the result of handling one event, the
 * invariants that relate the tables, and the fan-out helpers every handler uses.
 */
module RoomState {
  import opened Wrappers
  import opened Protocol

  /** `clients` and `chatRooms`. */
  datatype State = State(clients: map<ConnId, ClientData>, rooms: map<string, Room>)

  /**
   * What one handler does: the tables afterwards and the records sent, in send
   * order. `crashed` means the handler threw a TypeError (a property read on
   * `undefined`), which ends the Node process; `st` is then the state at the throw.
   */
  datatype Outcome = Outcome(st: State, out: seq<Outbound>, crashed: bool)

  /** The server before any connection. */
  const Empty: State := State(map[], map[])

  /** No connection occurs twice in a member sequence (it models a `Set`). */
  predicate Distinct(s: seq<ConnId>) {
    forall i, j :: 0 <= i < j < |s| ==> s[i] != s[j]
  }

  /** `set.delete(x)` on an insertion-ordered set. */
  function Without(s: seq<ConnId>, x: ConnId): (r: seq<ConnId>)
    ensures forall y :: y in r <==> y in s && y != x
    ensures Distinct(s) ==> Distinct(r)
  {
    if s == [] then []
    else if s[0] == x then Without(s[1..], x)
    else
      var w := Without(s[1..], x);
      assert Distinct(s) ==> Distinct(s[1..]) && s[0] !in w;
      assert forall j :: 1 <= j < |[s[0]] + w| ==> ([s[0]] + w)[j] == w[j - 1];
      [s[0]] + w
  }

  /** `set.add(x)` on an insertion-ordered set: a new element goes last, a present one stays put. */
  function Insert(s: seq<ConnId>, x: ConnId): seq<ConnId> {
    if x in s then s else s + [x]
  }

  /** Adding keeps the old members in their order and appends `x` exactly when it is new. */
  lemma InsertAdds(s: seq<ConnId>, x: ConnId)
    ensures var r := Insert(s, x);
      && (forall y :: y in r <==> y in s || y == x)
      && |r| >= |s| && r[..|s|] == s
      && (x !in s ==> r[|s|..] == [x])
      && (x in s ==> |r| == |s|)
  {
  }

  /** The session of `c`, when `c` is a registered connection. */
  function CurrentRoom(st: State, c: ConnId): Option<string> {
    if c in st.clients then st.clients[c].currentRoom else None
  }

  /** The session of `c` is in no room, or in a room that still exists: its leave cannot throw. */
  predicate NotStranded(st: State, c: ConnId) {
    CurrentRoom(st, c).Some? ==> CurrentRoom(st, c).value in st.rooms
  }

  /** A session can only be in a room once it has a name, and neither is ever the empty string. */
  predicate SessionOk(cd: ClientData) {
    && cd.username != Some("")
    && cd.currentRoom != Some("")
    && (cd.currentRoom.Some? ==> cd.username.Some?)
  }

  /** Every member of a room is a registered connection whose `currentRoom` names that room. */
  ghost predicate MembersAgree(st: State) {
    forall r, u :: r in st.rooms && u in st.rooms[r].users ==>
      u in st.clients && st.clients[u].currentRoom == Some(r)
  }

  ghost predicate MembersDistinct(st: State) {
    forall r :: r in st.rooms ==> Distinct(st.rooms[r].users)
  }

  ghost predicate SessionsOk(st: State) {
    forall c :: c in st.clients ==> SessionOk(st.clients[c])
  }

  /**
   * The invariant every handler keeps, whatever it does: members agree with their
   * sessions (so a connection is a member of at most one room), sets have no
   * duplicates, and no room is named by the empty string.
   */
  ghost predicate WellFormed(st: State) {
    && "" !in st.rooms
    && MembersAgree(st)
    && MembersDistinct(st)
    && SessionsOk(st)
  }

  /** No room without members survives: the last leave deletes a room. */
  ghost predicate NoEmptyRoom(st: State) {
    forall r :: r in st.rooms ==> st.rooms[r].users != []
  }

  /** The invariant of the server between events. */
  ghost predicate Valid(st: State) {
    WellFormed(st) && NoEmptyRoom(st)
  }

  /**
   * The converse of `MembersAgree`: every `currentRoom` names an existing room
   * that has the connection as a member. `shutdown` can break it (see `Moderation`).
   */
  ghost predicate RoomsAgree(st: State) {
    forall c :: c in st.clients && st.clients[c].currentRoom.Some? ==>
      st.clients[c].currentRoom.value in st.rooms &&
      c in st.rooms[st.clients[c].currentRoom.value].users
  }

  /** `currentRoom` and `users` describe the same membership relation. */
  ghost predicate Consistent(st: State) {
    Valid(st) && RoomsAgree(st)
  }

  /** Every room without members after a step was already there, without members, before it. */
  ghost predicate NoNewEmptyRoom(before: State, after: State) {
    forall r :: r in after.rooms && after.rooms[r].users == [] ==>
      r in before.rooms && before.rooms[r].users == []
  }

  /** Every room after a step was there before, with the same host, visibility, bans and log. */
  ghost predicate OnlyMembershipChanged(before: State, after: State) {
    forall r :: r in after.rooms ==>
      r in before.rooms && after.rooms[r] == before.rooms[r].(users := after.rooms[r].users)
  }

  /** Every room after a step was there before, with the same chat log. */
  ghost predicate LogsKept(before: State, after: State) {
    forall r :: r in after.rooms ==>
      r in before.rooms && after.rooms[r].messages == before.rooms[r].messages
  }

  /** The same connections are registered, under the same names. */
  ghost predicate SameSessions(before: State, after: State) {
    && after.clients.Keys == before.clients.Keys
    && forall k :: k in before.clients ==> after.clients[k].username == before.clients[k].username
  }

  /** The sends of `users.forEach(ws => ws.send(e))`, one per member in member order. */
  function Fanout(users: seq<ConnId>, e: Event): (out: seq<Outbound>)
    ensures |out| == |users|
    ensures forall k :: 0 <= k < |users| ==> out[k] == Send(users[k], e)
  {
    if users == [] then [] else [Send(users[0], e)] + Fanout(users[1..], e)
  }

  /** `broadcast(roomName, e)`: nothing when no room has that name, else one send per member. */
  function Broadcast(rooms: map<string, Room>, name: string, e: Event): seq<Outbound> {
    if name in rooms then Fanout(rooms[name].users, e) else []
  }

  /** A broadcast to an unknown room sends nothing; otherwise it sends `e` once to each member, in member order. */
  lemma BroadcastSends(rooms: map<string, Room>, name: string, e: Event)
    ensures var out := Broadcast(rooms, name, e);
      && (name !in rooms ==> out == [])
      && (name in rooms ==> |out| == |rooms[name].users|)
      && (name in rooms ==> forall k :: 0 <= k < |out| ==> out[k] == Send(rooms[name].users[k], e))
  {
  }

  /** The log replay a joiner receives: each logged line, tagged with whether the host wrote it. */
  function Replay(c: ConnId, log: seq<ChatLine>, host: string): (out: seq<Outbound>)
    ensures |out| == |log|
    ensures forall k :: 0 <= k < |log| ==>
      out[k] == Send(c, Message(log[k].user, log[k].text, log[k].user == host))
  {
    if log == [] then []
    else [Send(c, Message(log[0].user, log[0].text, log[0].user == host))] + Replay(c, log[1..], host)
  }

  /** The public room list: every room that is not private, with its member count. */
  function PublicRooms(rooms: map<string, Room>): (list: map<string, nat>)
    ensures forall n :: n in list <==> n in rooms && !rooms[n].isPrivate
    ensures forall n :: n in list ==> list[n] == |rooms[n].users|
  {
    map n | n in rooms && !rooms[n].isPrivate :: |rooms[n].users|
  }

  /** `sendRoomListUpdate()`: the public room list, to every connection of the server. */
  function RoomListUpdate(rooms: map<string, Room>): seq<Outbound> {
    [SendToAll(RoomList(PublicRooms(rooms)))]
  }

  /** The refresh is one record to every connection, listing exactly the public rooms with their member counts. */
  lemma RoomListIsPublic(rooms: map<string, Room>)
    ensures var out := RoomListUpdate(rooms);
      && |out| == 1 && out[0].SendToAll? && out[0].event.RoomList?
      && (forall n :: n in out[0].event.rooms <==> n in rooms && !rooms[n].isPrivate)
      && (forall n :: n in out[0].event.rooms ==> out[0].event.rooms[n] == |rooms[n].users|)
  {
  }

  /** Removing the first element of a duplicate-free sequence leaves its tail. */
  lemma {:induction false} WithoutHead(s: seq<ConnId>)
    requires s != [] && Distinct(s)
    ensures Without(s, s[0]) == s[1..]
  {
    WithoutAbsent(s[1..], s[0]);
  }

  /**
   * In a duplicate-free sequence, removing the element at position `i` keeps the
   * others in their order: what was before it, then what was after it.
   */
  lemma {:induction false} WithoutAt(s: seq<ConnId>, i: nat)
    requires Distinct(s) && i < |s|
    ensures Without(s, s[i]) == s[..i] + s[i + 1..]
    decreases i
  {
    if i == 0 {
      WithoutHead(s);
    } else {
      assert Distinct(s[1..]) && s[1..][i - 1] == s[i];
      WithoutAt(s[1..], i - 1);
      assert s[0] != s[i];
      assert s[1..][..i - 1] + s[1..][i..] == s[1..i] + s[i + 1..];
      assert s[..i] + s[i + 1..] == [s[0]] + (s[1..i] + s[i + 1..]);
    }
  }

  /** Removing an absent element changes nothing. */
  lemma {:induction false} WithoutAbsent(s: seq<ConnId>, x: ConnId)
    requires x !in s
    ensures Without(s, x) == s
  {
    if s != [] {
      WithoutAbsent(s[1..], x);
      assert s == [s[0]] + s[1..];
    }
  }

  /** Removing `x` empties a sequence exactly when `x` was all it held. */
  lemma WithoutEmpty(s: seq<ConnId>, x: ConnId)
    ensures Without(s, x) == [] <==> forall u :: u in s ==> u == x
  {
    var w := Without(s, x);
    if w != [] {
      assert w[0] in s && w[0] != x;
    }
  }

  /** Changing a room's host, visibility, bans or log, but not its members, keeps every invariant. */
  lemma SettingsChangeKeepsInvariants(st: State, r: string, room: Room)
    requires WellFormed(st) && r in st.rooms && room.users == st.rooms[r].users
    ensures var st' := st.(rooms := st.rooms[r := room]);
      && WellFormed(st') && NoNewEmptyRoom(st, st')
      && (RoomsAgree(st) ==> RoomsAgree(st'))
      && (Consistent(st) ==> Consistent(st'))
  {
    var st' := st.(rooms := st.rooms[r := room]);
    assert forall r' :: r' in st'.rooms ==> r' in st.rooms && st'.rooms[r'].users == st.rooms[r'].users;
  }
}
