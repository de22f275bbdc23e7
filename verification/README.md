# B3Chat room server, modelled in Dafny

B3Chat is a WebSocket chat server (`server.js`). Each connection has a session, `{ username, currentRoom }`. The server keeps two tables:
- `clients`, from connection to session;
- `chatRooms`, from room name to `{ host, users, isPrivate, banned, messages }`.

Inbound JSON records do the following:
- set a name;
- create, list, join and leave rooms;
- send chat lines.

A chat line from the room's host that starts with `!cmd` is a command: `private`, `public`, `kick <name>`, `ban <name>`, `shutdown` or `clear`. Node runs one handler at a time. Each inbound record is therefore one step: it updates the two tables and sends a sequence of outbound records.

This project models that state machine in two layers.

- **Specification functions** take the tables before a step to the tables after it, plus the records sent:
  - `Lifecycle.Leave`, `Lifecycle.Join`;
  - `Moderation.Chat`, `Moderation.Command`, `Moderation.Kick`, `Moderation.Ban`, `Moderation.Shutdown`;
  - `Gateway.Dispatch`, `Gateway.Connect`, `Gateway.Close`.

  The result is an `Outcome(st, out, crashed)`. When a handler throws a `TypeError` (a property read on `undefined`), Node ends the process. The model marks this with `crashed` and keeps the state at the throw.
- **`Server.ChatServer`** is the server as the source runs it. It is a class whose `clients` and `chatRooms` fields are updated in place. Its handlers contain the source's loops:
  - `broadcast`'s `forEach`;
  - the log replay in `joinRoom`;
  - the `for…of … break` in `kickUserFromRoom`;
  - the member loop of `shutdownRoom`.

  Each method is proved to leave the tables, and to return the sends, exactly as the specification function of the same handler does.

A connection is a number (`ConnId`). A JS `Set` of connections is a duplicate-free `seq`, because the source relies on its insertion order: it broadcasts in member order and kicks the first member with a name. The room-list payload is a map from room name to member count.

Four invariants are stated over the tables:
- `WellFormed`: every member's session names its room, so a connection is in at most one room; no set holds duplicates; names are never empty. Every handler keeps it, whatever it does.
- `Valid`: `WellFormed`, and no room is empty.
- `RoomsAgree`: every session's `currentRoom` names a live room that holds the connection.
- `Consistent`: `Valid` and `RoomsAgree`.

The source's quirks are modelled as written, and the lemmas state them:
- **Host-keyed notices.** After `private`, `public`, `clear`, `kick` and `ban`, the notices go to the room named after the host's username (`HostKeyedNotices`). When that is another live room, its members hear them and the issuing room hears none of the settings notices; when no room has that name, nobody hears them (`HostKeyedNoticesGoAstray`).
- **Shutdown deletes by host name.** `shutdown` deletes the room named after the host. If that is another live room, its members are stranded and their next leave throws (`ShutdownCollisionStrandsMembers`, `CollisionIsReachable`).
- **A banned join still leaves.** The joiner has already left its old room when the ban refuses it (`BannedJoinRefused`).
- **Rejoining a room you are alone in throws.** This is the only event that throws from a consistent state (`JoinCrashesOnlyWhenAloneInTarget`, `DispatchRobust`).
- **Usernames can be overwritten.** `set_username` replaces the name at any time, even inside a room. A host who renames loses the host role, because the room keeps the host name it was created with (`Gateway.Rename`, `RenamedHostLosesCommands`).
- **A plain leave does not refresh the list.** Only a leave that deletes the room refreshes the room list (`LeaveFromRoom`).

## Model

| member | source | states |
|---|---|---|
| Text.Split | server.js:174 | `text.split(' ')` yields at least one piece, and no piece holds a space |
| Text.UnsplitSplit | server.js:174 | joining the pieces of a split with single spaces gives back the original text |
| Text.SplitUnsplit | server.js:174 | splitting space-free pieces joined by spaces gives back the same pieces |
| Text.CommandTokens | server.js:174-175 | the command word is the second space-separated token and the target the third, undefined when absent |
| RoomState.Without | server.js:141 | `users.delete(ws)` keeps exactly the other members and keeps the set duplicate-free |
| RoomState.WithoutAt | server.js:141 | removing the member at position `i` of a duplicate-free set leaves the members before it, then those after it |
| RoomState.WithoutEmpty | server.js:145 | the member set becomes empty exactly when the leaving connection was its only member |
| RoomState.InsertAdds | server.js:122 | `users.add(ws)` keeps the old members in order, appends the connection exactly when it is new, and adds nothing else |
| RoomState.Fanout | server.js:9-16 | a broadcast sends one record per member, to each member in member order |
| RoomState.BroadcastSends | server.js:9-16 | `broadcast` to an unknown room sends nothing; otherwise it sends the record once to each member, in member order |
| RoomState.PublicRooms | server.js:66-68 | the room-list snapshot holds exactly the rooms that are not private, each with its member count |
| RoomState.RoomListIsPublic | server.js:244-255 | `sendRoomListUpdate` is one record to every connection, listing exactly the public rooms with their member counts |
| RoomState.Replay | server.js:128-130 | the replay sends every logged line in log order, each tagged with whether its author is the host |
| Lifecycle.DepartTables | server.js:141-151 | a leave's table update clears the leaver's `currentRoom`, deletes the room exactly when no other member was in it, otherwise keeps the room with only the leaver removed, and changes no other room |
| Lifecycle.DepartFrame | server.js:136-152 | a leave keeps every session's name, every other session and every other room, creates no empty room, and changes only memberships |
| Lifecycle.DepartWellFormed | server.js:136-152 | removing a connection from the room it is in keeps the tables well formed, besides everything `DepartFrame` keeps |
| Lifecycle.AddMemberTables | server.js:121-122 | a join's table update sets the joiner's `currentRoom` to the target, adds the joiner to the target's members after the old ones, and changes no other room and nothing else in the target |
| Lifecycle.AddMemberWellFormed | server.js:121-122 | adding a named connection that is in no room keeps the tables well formed, keeps the sessions, creates no empty room, and appends the joiner to the members |
| Lifecycle.Leave | server.js:136-152 | leaving:<br>- keeps every session's name and every other session;<br>- keeps the tables well formed and creates no empty room;<br>- clears `currentRoom`;<br>- changes no room other than the one left, and only its members;<br>- throws exactly when `currentRoom` names a deleted room, and then changes nothing and sends nothing |
| Lifecycle.Join | server.js:107-134 | after a join without a throw:<br>- the target room exists with its bans unchanged;<br>- the joiner's `currentRoom` is the target exactly when its name is not banned there;<br>- the joiner is a member exactly when `currentRoom` names the target;<br>- the tables stay well formed |
| LifecycleProperties.AtMostOneRoom | server.js:110-122 | in well-formed tables a connection is a member of at most one room, the one its session names |
| RoomState.SettingsChangeKeepsInvariants | server.js:168 | changing a room's visibility, bans or log, but not its members, keeps every invariant |
| LifecycleProperties.LeaveOutsideRoomIsNoOp | server.js:137-138 | leaving does nothing for an unknown connection or one in no room |
| LifecycleProperties.LeaveIdempotent | server.js:136-152 | a second leave right after a first is harmless: nothing changes and nothing is sent |
| LifecycleProperties.LeaveFromRoom | server.js:140-151 | leaving a live room:<br>- never throws and clears `currentRoom`;<br>- deletes the room exactly when no other member was in it;<br>- a kept room holds the other members in order, who alone hear of the leave;<br>- only a deletion sends the room list |
| LifecycleProperties.LeaveIsDepart | server.js:140-151 | a leave from a live room never throws, and its tables are exactly the table update `Depart` |
| LifecycleProperties.LeaveKeepsConsistent | server.js:136-152 | when sessions and members agree, a leave never throws and keeps them in agreement |
| LifecycleProperties.JoinPlacesInOneRoom | server.js:110-122 | a join that is not refused leaves the joiner with `currentRoom` = target, a member of the target and of no other room |
| LifecycleProperties.JoinNewState | server.js:107-134 | a join throws exactly when its leave throws or the leave deleted the target; otherwise the tables are those after the leave, with the joiner's `currentRoom` set to the target and the joiner added last to the target's members, and nothing else changed |
| LifecycleProperties.JoinFromNoRoom | server.js:107-122 | a join by a connection in no room, whose name is not banned, never throws and is exactly the table update `AddMember` |
| LifecycleProperties.BannedJoinRefused | server.js:110-119 | a banned joiner:<br>- has left its old room;<br>- gets only the ban error after the leave's records;<br>- is not a member and has no current room |
| LifecycleProperties.JoinOutput | server.js:121-133 | a successful join sends, in order:<br>- the leave's records;<br>- the confirmation and the room's status;<br>- the replayed log;<br>- the join notice to the members;<br>- the room list |
| LifecycleProperties.ReplyLayout | server.js:124-133 | in `before + [joined_room, room_status] + replay + tail`, each record sits at its position: the two replies right after `before`, then logged line `k` at offset `k`, then the tail |
| LifecycleProperties.JoinReplies | server.js:124-133 | a successful joiner receives:<br>- `joined_room` with `isHost = (host == name)`;<br>- `room_status` with the room's visibility;<br>- then each logged line in log order, tagged `isHostMsg = (author == host)`;<br>- then the room and all connections hear of it |
| LifecycleProperties.JoinCrashesOnlyWhenAloneInTarget | server.js:110-116 | when sessions and members agree, a join throws exactly when the joiner is the only member of the room it asks to join |
| LifecycleProperties.JoinKeepsConsistent | server.js:107-134 | a join that does not throw keeps sessions and members in agreement |
| Moderation.FirstNamed | server.js:217-219 | the `for…of` search stops at the first member with the target name, and no member before it has that name |
| Moderation.Kick | server.js:216-226 | a kick:<br>- never throws;<br>- keeps sessions and well-formedness and creates no empty room;<br>- changes no other room;<br>- changes only the membership of the kicked member's room |
| Moderation.Ban | server.js:228-232 | a ban:<br>- adds the name to the room's banned set before kicking;<br>- never throws and keeps every log;<br>- keeps the room's host and visibility;<br>- leaves every other room unchanged |
| Moderation.ShutdownLoop | server.js:236-239 | the member loop keeps sessions and well-formedness, creates no empty room, and changes only memberships |
| Moderation.Shutdown | server.js:234-242 | a shutdown keeps sessions and well-formedness, adds no room and changes only memberships |
| Moderation.DeleteRoomWellFormed | server.js:240 | `delete chatRooms[room.host]` keeps the tables well formed and creates no empty room, whatever the deleted room held |
| Moderation.Command | server.js:172-214 | a command keeps sessions and well-formedness and adds no room (`kick`, `ban` and `shutdown` may delete rooms); it keeps every log unless it is `clear` |
| Moderation.Chat | server.js:154-170 | handling a chat line keeps sessions and well-formedness and adds no room |
| ModerationProperties.ChatIgnoresEmptyText | server.js:159 | missing or empty text changes nothing and sends nothing |
| ModerationProperties.ChatLogsPlainLine | server.js:161-169 | a line that is not a host `!cmd`, including any `!cmd` line from a non-host:<br>- is appended once to the end of the room's log under the sender's name;<br>- is sent once to every member in order;<br>- changes nothing else |
| ModerationProperties.ChatThenJoinReplays | server.js:128-130 | a plain line sent before a join is the last line replayed to the joiner |
| ModerationProperties.HostCommandNotLogged | server.js:161-164 | a host's `!cmd` line is never logged; every log is kept, except that `clear` empties the room's log |
| ModerationProperties.HostLineIsCommand | server.js:161-164 | a host's line that starts with `!cmd` is handled by `handleCommand` alone |
| ModerationProperties.UnknownCommandAnswersIssuer | server.js:211-212 | an unknown or missing command word is answered with an error to the issuer only, and nothing changes |
| ModerationProperties.PrivacyCommands | server.js:178-190 | `private` and `public` set the room's visibility and change nothing else in the tables; so `private` removes the room from the public list and `public` lists it with its member count, no other entry changes, and the refreshed list is sent last |
| ModerationProperties.PrivacyCommandIs | server.js:178-190 | `private` and `public` set the room's visibility, broadcast the new status and the notice to the room named after the host, then send the room list; nothing else changes |
| ModerationProperties.VisibilityChange | server.js:244-247 | changing one room's visibility removes it from the public list (`private`) or lists it with its member count (`public`), and changes no other entry |
| ModerationProperties.ClearEmptiesLog | server.js:206-209 | `clear` empties the room's log and changes nothing else |
| ModerationProperties.HostKeyedNotices | server.js:180-231 | the notices of `private`, `public` and `clear` are exactly broadcasts to the room named after the host (plus the room list); a kick or a ban ends with its notice broadcast there |
| ModerationProperties.HostKeyedNoticesGoAstray | server.js:180-231 | for the five host-keyed commands:<br>- when the host's name is another live room, every member of it is sent the command's notice;<br>- for `private`, `public` and `clear`, no member of the issuing room is sent anything;<br>- when no room has the host's name, `private` and `public` send only the room list and `clear` sends nothing |
| ModerationProperties.NoticesReachHostRoom | server.js:180-231 | when the host's name is another live room, every member of that room is sent the notice of `private`, `public`, `clear`, `kick` or `ban` |
| ModerationProperties.SettingsNoticesMissIssuers | server.js:178-209 | when the host's name is another room, `private`, `public` and `clear` send nothing to any member of the issuing room |
| ModerationProperties.SettingsSendToHostRoom | server.js:178-209 | every record sent to a single connection by `private`, `public` or `clear` goes to a member of the room named after the host |
| ModerationProperties.KickRemovesFirstNamed | server.js:216-226 | a kick removes the first member with the name and no one else:<br>- it is told first and loses its room;<br>- the room survives exactly when others were in it, holding those before it then those after it;<br>- every other session is unchanged;<br>- an unknown name changes nothing |
| ModerationProperties.KickIsLeave | server.js:216-226 | a kick is the leave of the first member with the name: it sends the kick notice to that member, then the leave's records, then the kick notice to the room named after the host; without such a member the tables are unchanged and only that last notice is sent |
| ModerationProperties.MemberLeaves | server.js:136-151 | the member at position `i` of a room loses its room on leaving; the room survives exactly when someone else is in it, holding the members before and after it; other sessions are unchanged |
| ModerationProperties.BanKicksFirstNamed | server.js:228-230 | a ban kicks as `kick` does:<br>- the first member with the name is told first and loses its room;<br>- the room survives exactly when others were in it, keeping their order;<br>- other sessions are unchanged;<br>- with no such member only the banned set changes |
| ModerationProperties.BanIsKick | server.js:228-231 | a ban is the kick in the tables where the name is already banned: its tables are the kick's, and its records are the kick's followed directly by the ban notice to the room named after the host |
| ModerationProperties.KickBanKeepConsistent | server.js:216-232 | kicks and bans keep sessions and members in agreement |
| ModerationProperties.KickKeepsAgreement | server.js:216-226 | a kick keeps sessions and members in agreement when they agreed |
| ModerationProperties.BanThenJoinRefused | server.js:228-232 | after a ban the name is in the banned set, and a connection with that name that asks to join is refused |
| ModerationProperties.ShutdownLoopEmptiesRoom | server.js:236-239 | in well-formed tables, the member loop:<br>- removes every member in turn without a throw;<br>- ends with the room deleted;<br>- leaves every other room and session unchanged;<br>- keeps sessions and members in agreement when they agreed |
| ModerationProperties.ShutdownLoopNotifies | server.js:236-238 | in well-formed tables, the member loop keeps the records already sent in front, and when no leave throws it sends "Room is shutting down" to every member |
| ModerationProperties.FirstMemberLeaves | server.js:236-238 | one turn of the member loop: the first member leaves without a throw and loses its room; the room is deleted when it was the only member, and otherwise keeps the others in order; nothing else changes |
| ModerationProperties.ShutdownClosesRoom | server.js:234-242 | a shutdown of a room with members, in well-formed tables (so also after a collision):<br>- never throws;<br>- tells every member the room is shutting down;<br>- removes the room and the room named after the host;<br>- leaves the former members in no room and other sessions unchanged;<br>- sends the room list last;<br>- keeps consistent tables consistent unless the host names another live room |
| Gateway.Connect | server.js:18-19 | a new connection gets a session with no name and no room, and nothing else changes; every invariant is kept |
| Gateway.Rename | server.js:38 | `set_username` replaces the name at any time, keeps the session's room and every other session and room, and keeps the tables well formed |
| GatewayProperties.NewConnectionMustNameFirst | server.js:19-94 | a new connection is refused creating or joining a room until it sets a name, and chatting until it joins; its leave does nothing |
| GatewayProperties.RenamedHostLosesCommands | server.js:38-169 | renaming inside a room sends nothing and keeps the room; a host renamed away from the room's host name has its `!cmd` lines logged as chat |
| Gateway.Create | server.js:54-62 | creating a room keeps the connections and well-formedness and creates no empty room |
| Gateway.AddRoom | server.js:54-60 | the new room is public, with the creator's name as host, no members, no bans and an empty log; the sessions are unchanged and the tables stay well formed |
| GatewayProperties.CreateNewState | server.js:54-62 | for a creator that is not stranded, `create_room` never throws; the tables are those after the creator's leave, plus the new room holding only the creator, with the creator's `currentRoom` set to it |
| GatewayProperties.CreateIsJoin | server.js:54-62 | `create_room` is the join of the tables with the new room added, followed by the room list |
| GatewayProperties.FreshRoomJoinable | server.js:54-61 | after the new room is added, the creator is not stranded and not in it, and agreement is kept when it held |
| GatewayProperties.LeaveBesideFreshRoom | server.js:61 | the creator's leave inside `joinRoom` does to the other rooms what it would have done without the new room, and never throws |
| GatewayProperties.JoinFreshRoom | server.js:61 | the creator's join of the new room never throws; the creator becomes its only member, is told it is host, and the room list is sent last |
| Gateway.Dispatch | server.js:21-98 | every inbound record keeps the set of connections and well-formedness, and creates no empty room |
| Gateway.Close | server.js:101-104 | closing forgets exactly that connection and keeps the invariants |
| GatewayProperties.CloseForgets | server.js:101-104 | closing throws exactly when the session names a deleted room; otherwise the sessions lose exactly that connection, and the rooms and records are those of its leave |
| GatewayProperties.CreateRoomRefusals | server.js:42-53 | `create_room` with no name set, a missing or empty room name, or an existing room name only replies with that error; the tables are unchanged |
| GatewayProperties.JoinRoomRefusals | server.js:73-80 | `join_room` with no name set, or a missing or unknown room name, only replies with that error |
| GatewayProperties.DispatchErrorsAreLocal | server.js:24-97 | unparsable JSON, a missing or empty username, an unknown `type` and a chat line from a session in no room each send only their error, to the sender alone, and change nothing |
| GatewayProperties.ListRoomsIsPublicSnapshot | server.js:65-70 | `list_rooms` answers the asker alone with exactly the non-private rooms, each with its member count |
| GatewayProperties.CreateMakesHostedRoom | server.js:54-62 | for a creator that is not stranded (also after a collision), a created room:<br>- never throws;<br>- is public, with no bans and an empty log;<br>- has the creator as host and as its only member;<br>- the creator is told it is host;<br>- the room list is sent twice, last;<br>- agreement and consistency are kept when they held |
| GatewayProperties.ChatKeepsConsistent | server.js:154-170 | a chat line never throws and keeps agreement unless it is a colliding `shutdown` |
| GatewayProperties.CommandKeepsConsistent | server.js:172-214 | a command never throws and keeps agreement unless it is a `shutdown` whose host names another live room |
| GatewayProperties.DispatchRobust | server.js:32-98 | from consistent tables:<br>- an inbound record throws exactly when it re-joins the room its sender is alone in;<br>- every other record except a colliding `shutdown` keeps the tables consistent |
| GatewayProperties.RobustRename | server.js:37-39 | from consistent tables, `set_username` never throws and keeps them consistent |
| GatewayProperties.RobustCreate | server.js:42-63 | from consistent tables, `create_room` never throws and keeps them consistent |
| GatewayProperties.RobustJoin | server.js:73-82 | from consistent tables, `join_room` throws exactly when it re-joins the room its sender is alone in, and otherwise keeps them consistent |
| GatewayProperties.RobustChat | server.js:84-91 | from consistent tables, `chat_message` never throws and keeps them consistent unless it is a colliding `shutdown` |
| GatewayProperties.RenameDispatch | server.js:37-39 | a non-empty `set_username` only replaces the name, and sends nothing |
| GatewayProperties.CreateDispatch | server.js:42-63 | `create_room` from a named connection, with a new non-empty room name, runs the creation path |
| GatewayProperties.JoinDispatch | server.js:73-82 | `join_room` from a named connection, naming an existing room, runs `joinRoom` |
| GatewayProperties.ChatDispatch | server.js:84-91 | `chat_message` from a connection in a room runs `handleChatMessage` for that room |
| GatewayProperties.CloseRobust | server.js:101-104 | closing a connection never throws and keeps the tables consistent |
| GatewayProperties.HostShutdownLine | server.js:161-163 | a host's `!cmd shutdown` line runs `shutdownRoom` on the sender's room |
| GatewayProperties.HostShutdownChat | server.js:161-163 | a host's line `!cmd shutdown` is handled as `shutdownRoom` of the sender's room |
| GatewayProperties.CommandShutdown | server.js:202-204 | the command word `shutdown` runs `shutdownRoom` |
| GatewayProperties.ShutdownCollisionStrandsMembers | server.js:240 | a shutdown whose host names another live room:<br>- deletes that room while its members' sessions still name it;<br>- loses agreement;<br>- the next `leave_room` of such a member throws |
| GatewayProperties.StrandedLeaveThrows | server.js:140-141 | a session naming a deleted room breaks agreement, and its leave throws |
| CollisionTrace.CollisionIsReachable | server.js:18-134 | from the empty server, two connections named "bob" and "carol", bob creating "bob", carol joining it and bob creating "lobby" reach, without a throw, a consistent state where bob's `!cmd shutdown` collides with carol's room |
| CollisionTrace.CollisionStartCollides | server.js:234-240 | in the traced state, bob's `!cmd shutdown` is a colliding shutdown, and carol is a member of the room it deletes |
| Server.ChatServer.constructor | server.js:6-7 | the server starts with no connections and no rooms |
| Server.ChatServer.Broadcast | server.js:9-16 | the `forEach` loop sends one record per member in member order, and nothing for an unknown room |
| Server.ChatServer.LeaveRoom | server.js:136-152 | the in-place leave updates the tables and sends exactly as `Lifecycle.Leave` |
| Server.ChatServer.ReplayLog | server.js:127-130 | the `forEach` over the log sends exactly the replay of `Replay`, changing nothing |
| Server.ChatServer.JoinRoom | server.js:107-134 | the in-place join, with its replay loop, updates the tables and sends exactly as `Lifecycle.Join` |
| Server.ChatServer.KickUserFromRoom | server.js:216-226 | the `for…of … break` loop updates the tables and sends exactly as `Moderation.Kick` |
| Server.ChatServer.BanUserFromRoom | server.js:228-232 | the in-place ban updates the tables and sends exactly as `Moderation.Ban` |
| Server.ChatServer.ShutdownRoom | server.js:234-242 | the member loop and the deletion update the tables and send exactly as `Moderation.Shutdown` |
| Server.ChatServer.HandleCommand | server.js:172-214 | the command switch updates the tables and sends exactly as `Moderation.Command` |
| Server.ChatServer.HandleChatMessage | server.js:154-170 | chat handling updates the tables and sends exactly as `Moderation.Chat` |
| Server.ChatServer.OnConnection | server.js:18-19 | registration updates the tables exactly as `Gateway.Connect` |
| Server.ChatServer.OnMessage | server.js:21-98 | the dispatcher updates the tables and sends exactly as `Gateway.Dispatch` |
| Server.ChatServer.OnClose | server.js:101-104 | the close handler updates the tables and sends exactly as `Gateway.Close` |

## Left out

- The WebSocket server, its port and the start-up log line (server.js:2-4, 257) are I/O. A connection is a number, and a send is an `Outbound` record.
- The `readyState === OPEN` checks (server.js:12, 251) are not modelled: every registered connection is treated as open.
- `sendRoomListUpdate` iterates `wss.clients` (server.js:250). This is modelled as one `SendToAll` record rather than one send per socket.
- JSON parsing and serialisation are not modelled:
  - an inbound record is an `Inbound` value, and unparsable input is `InvalidJson`;
  - a field that is missing or not a string is `None`;
  - a record whose `type` is none of the known ones is `UnknownType`.
- Three JSON inputs are not modelled:
  - a body of JSON `null`, on which reading `data.type` throws;
  - a non-string `roomName` in `join_room`, which JS coerces to a property key;
  - room names and usernames that are `Object.prototype` properties (such as `toString` or `constructor`), which `chatRooms[name]` finds on a plain object. A host named `constructor` makes `broadcast(room.host, …)` (server.js:10-11) read `.users` of a function and throw on `private`, `public`, `clear`, `kick` and `ban`; the model does not throw there.
- The order of the room list (`Object.entries` order) is not modelled. The list is a map from room name to member count.
- The text of system notices is not modelled: the `user: 'System'` field, the `isHostMsg` flag that only some notices carry, and the interpolated strings. Each notice is a `Notice` constructor carrying the name it mentions. An undefined kick or ban target is `None`, which the source prints as "undefined".
- `Moderation.Ban`: banning with no target adds nothing. The source adds `undefined` to the banned set, but a session name is never `undefined`, so no join can tell the difference.
- The `isHostJoining` argument of `joinRoom` is unused by the source and is not modelled.
- After a handler throws, the process ends. The model records the throw and the state at that point, and models no later events.
