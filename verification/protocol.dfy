/**
 * The entities of the chat server and the events it exchanges with clients.
 * Inbound and outbound JSON records are modelled as datatypes; a WebSocket is an
 * opaque connection number.
 */
module Protocol {
  import opened Wrappers

  /** A WebSocket connection (the key of the `clients` map and the member of `room.users`). */
  type ConnId = nat

  /** The session kept per connection: `{ username, currentRoom }`, both null until set. */
  datatype ClientData = ClientData(username: Option<string>, currentRoom: Option<string>)

  /** A session before any event: `{ username: null, currentRoom: null }`. */
  const FreshSession: ClientData := ClientData(None, None)

  /** One entry of a room's message log, `{ user, text }`. */
  datatype ChatLine = ChatLine(user: string, text: string)

  /**
   * A room of `chatRooms`. `users` is the JavaScript `Set` of member connections,
   * kept in insertion order because iteration over it (broadcast, kick, shutdown)
   * follows that order.
   */
  datatype Room = Room(host: string, users: seq<ConnId>, isPrivate: bool, banned: set<string>, messages: seq<ChatLine>)

  /** The room `create_room` makes: the creator as host, no members, public, nobody banned, no log. */
  function NewRoom(host: string): Room {
    Room(host, [], false, {}, [])
  }

  /** The text of a message from user 'System'. */
  datatype Notice =
    | UserJoined(name: string)          // "<name> joined the room."
    | UserLeft(name: string)            // "<name> left the room."
    | YouWereKicked                     // "You were kicked from the room."
    | UserKicked(target: Option<string>) // "<target> was kicked."
    | UserBanned(target: Option<string>) // "<target> was banned."
    | RoomSetPrivate                    // "Room set to private."
    | RoomSetPublic                     // "Room set to public."
    | MessagesCleared                   // "Messages cleared."
    | ShuttingDown                      // "Room is shutting down."

  /** The outbound records, by their `type` field. */
  datatype Event =
    | Error(message: string)
    | JoinedRoom(roomName: string, isHost: bool)
    | RoomStatus(isPrivate: bool)
    | Message(user: string, text: string, isHostMsg: bool)
    | SystemMessage(notice: Notice)
    | RoomList(rooms: map<string, nat>)

  /** A `send` to one connection, or the room-list send to every connection of the server. */
  datatype Outbound = Send(to: ConnId, event: Event) | SendToAll(event: Event)

  /**
   * The inbound records, by their `type` field. A field that is missing or is not
   * a string is `None`; a payload that is not JSON is `InvalidJson`; any other
   * `type` is `UnknownType`.
   */
  datatype Inbound =
    | InvalidJson
    | SetUsername(username: Option<string>)
    | CreateRoom(roomName: Option<string>)
    | ListRooms
    | JoinRoom(roomName: Option<string>)
    | ChatText(text: Option<string>)
    | LeaveRoom
    | UnknownType

  const InvalidJsonText: string := "Invalid JSON"
  const InvalidUsernameText: string := "Invalid username"
  const SetUsernameFirstText: string := "Set username first"
  const InvalidRoomNameText: string := "Invalid room name"
  const RoomExistsText: string := "Room already exists"
  const RoomNotFoundText: string := "Room not found"
  const JoinRoomFirstText: string := "Join a room first"
  const UnknownCommandText: string := "Unknown command"
  const BannedText: string := "You are banned from this room"
}
