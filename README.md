# Room coordination of the ZeroRa virtual-classroom server

This project models the socket.io handlers in `server.js`. The server keeps one
in-memory list, `users`, with one `{id, socketId, classId, name, role}` record per
participant. It also relies on socket.io's rooms: every connected socket is in some set of
rooms. Clients send `join-class`, `chat-message`, `draw`, `clear-board`, `webrtc-offer`,
`webrtc-answer` and `webrtc-ice-candidate` events, and socket.io raises `disconnect`.

- `join-class` and `disconnect` change state. They are methods of `Coordinator.Server`,
  which holds `users: seq<User>` and `rooms: map<SocketId, set<string>>`.
- The other handlers are stateless relays. They are functions in `Relay` that take the room
  map and return the emissions.

Every handler yields a sequence of `Emission(to, event)` values, one per `emit` call.
`Protocol.Inbox(out, t)` gives what socket `t` receives from those emissions, in order.
The contracts describe deliveries through `Inbox`, recipient by recipient.

Modelling decisions:

- **Falsy fields.** A payload field is an `Option`. `None` stands for `undefined`, `null`,
  or any other falsy value of an opaque payload. A string field counts as falsy when it
  is `None` or `""` (`Values.Truthy`).
- **Opaque payloads.** SDP descriptions, ICE candidates and whiteboard lines are the
  uninterpreted types `Sdp`, `Candidate` and `Line`.
- **Transport rooms.** Recipients come from the room map, never from `users`.
  - `socket.join` adds a room but never removes the socket's earlier class room, so the map
    can hold more than `users` shows.
  - socket.io puts each new socket in a room named by its own id (`Server.Connect`).
  - `socket.to(c)` sends to room `c` except every socket in the room named by the
    sender's id (`Protocol.ToOthers`). Normally that room holds only the sender. A socket
    that joined a class whose name equals the sender's id is excluded as well.
    `Protocol.ToOthersAllButSender` proves that the recipients are the room minus the
    sender when no other socket is in the sender's own room.
  - By the time the `disconnect` handler runs, socket.io has already taken the socket out
    of every room. `Server.Disconnect` therefore removes the socket from the map before it
    computes recipients.
- **Clock and randomness.** The time stamp `now` is a parameter. So is `suffix`, which
  stands for the ``${Date.now()}-${Math.random()}`` part of a user id.
- **Invariant.** `Coordinator.Consistent`, exposed as `Server.Valid()`, holds after every
  step:
  - at most one entry per socket;
  - every entry has a non-empty class, name and role;
  - every entry's socket is connected and in its class's room;
  - every connected socket is in its own room.
- **Scenario.** `Coordinator.Classroom`, `AliceJoins`, `BobJoins` and `BobLeaves` work through two
  participants joining a class and one leaving. They prove what each socket receives at
  each step.

Two behaviours of the code that a reader might not expect:

- A chat whose text is only whitespace is forwarded, not dropped. Only the empty string
  (or a missing text) is dropped (`Relay.WhitespaceChatForwarded`).
- There is no leave operation other than `disconnect`. Rooms are not first-class records:
  a snapshot is the flat `users` list filtered by class id.

## Model

| member | source | states |
|---|---|---|
| `Values.Or` | server.js:62-63 | `x \|\| d` on a string field: the field when truthy, otherwise the default; a non-empty default makes the result non-empty |
| `Seqs.Filter` | server.js:56 | `Array.prototype.filter`: the result holds exactly the elements of the input that satisfy the predicate, and is no longer than the input |
| `Presence.Find` | server.js:106 | `users.find` by socket id: no result exactly when the socket has no entry, otherwise its first entry |
| `Presence.NewUser` | server.js:58-64 | the new entry has the joining socket and class; its name is the given name or `Guest` when falsy, and its role the given role or `student` when falsy; both are non-empty; the id starts with the socket id |
| `Presence.Announce` | server.js:67-75 | every socket in the class room receives exactly the class's snapshot and then one `System` notice with the given text; sockets outside the room receive nothing |
| `Presence.RemoveSocket` | server.js:56 | filtering out a socket's entries keeps exactly the entries of other sockets, and never lengthens the list |
| `Presence.EntriesOf` | server.js:106 | a socket's entries are exactly the entries of `users` with that socket id |
| `Presence.InClass` | server.js:67 | an entry is in a class's snapshot exactly when it is in `users` with that class id; the snapshot is no longer than `users` |
| `Presence.JoinUsers` | server.js:56-65 | after `join-class` the new entry is last, and an entry is in the list exactly when it is the new entry or an old entry of another socket |
| `Presence.UniqueConcat` | server.js:65 | appending entries of sockets not yet listed keeps one entry per socket |
| `Presence.UniqueFilter` | server.js:56 | filtering `users` keeps one entry per socket |
| `Presence.AtMostOneEntry` | server.js:14 | under the invariant, a socket has at most one entry |
| `Presence.RemoveSocketEntries` | server.js:109 | after removing socket `s`, `s` has no entry and every other socket's entries are exactly as before |
| `Presence.RemoveSocketLength` | server.js:106-109 | in a list with one entry per socket, removing a socket that `find` locates shortens the list by exactly one; removing a socket it does not find changes nothing |
| `Presence.JoinUnique` | server.js:56-65 | `join-class` keeps one entry per socket |
| `Presence.JoinEntries` | server.js:56-65 | after `join-class` the joining socket has exactly one entry, the new one; it is the last element; with that socket's entries erased, the list equals the old list with them erased, so every other entry survives in its original order |
| `Presence.JoinOthers` | server.js:56 | `join-class` from one socket leaves every other socket's entries unchanged |
| `Presence.LeaveSnapshot` | server.js:109-111 | after a disconnect, no class snapshot holds an entry of the departed socket; every entry it holds is an old entry of that class |
| `Presence.SnapshotInRoom` | server.js:67-69 | under the invariant, every entry of a class snapshot belongs to a socket that receives the snapshot |
| `Protocol.InboxToRoom` | server.js:69 | `io.to(c).emit` reaches exactly the sockets in room `c`, the sender included |
| `Protocol.ToOthers` | server.js:33 | `socket.to(c)` addresses exactly the sockets in room `c` that are not in the sender's own-id room, carries the event unchanged, and never addresses a sender that is in its own room |
| `Protocol.ToOthersAllButSender` | server.js:33 | when the sender is in its own room and no other socket is, `socket.to(c)` addresses exactly room `c` minus the sender |
| `Protocol.InboxToOthers` | server.js:33 | `socket.to(c).emit` reaches the sockets in room `c` that are not in the sender's own-id room, once each, and no one else |
| `Protocol.InboxConcat` | server.js:69-75 | a socket receives successive emissions in the order they are emitted |
| `Relay.ToOthersIf` | server.js:31-33 | at most one emission; with a truthy class id and a present payload it reaches, once each, the sockets of the room outside the sender's own-id room, and never a sender in its own room; otherwise no emission |
| `Relay.ToRoomIf` | server.js:80-82 | at most one emission; with a truthy class id and a present payload it reaches every socket in the room once; otherwise no emission |
| `Relay.OnOffer` | server.js:30-34 | `webrtc-offer` emits at most once and delivers `{sdp}` unchanged, without a class id, to the room's sockets outside the sender's own-id room, never to a sender in its own room; it is dropped when the class id or the sdp is falsy |
| `Relay.OnAnswer` | server.js:36-40 | `webrtc-answer`: the same delivery and drop rule as an offer, under its own event name |
| `Relay.OnIceCandidate` | server.js:42-46 | `webrtc-ice-candidate` emits at most once and delivers `{candidate}` to the room's sockets outside the sender's own-id room; it is dropped when the class id or the candidate is falsy |
| `Relay.OnDraw` | server.js:91-96 | `draw` emits at most once and delivers `{line}` to the room's sockets outside the sender's own-id room, never back to a sender in its own room; it is dropped when the class id or the line is falsy |
| `Relay.OnChatMessage` | server.js:79-87 | `chat-message` emits at most once and delivers `{from, text, time}` to every socket of the room, the sender's included; it is dropped exactly when the class id or the text is falsy |
| `Relay.OnClearBoard` | server.js:98-101 | `clear-board` emits at most once and reaches every socket of the room, the sender's included; it is dropped when the class id is falsy |
| `Relay.WhitespaceChatForwarded` | server.js:80 | a chat whose non-empty text consists only of spaces, tabs and line breaks reaches every socket of the room unchanged |
| `Coordinator.ConsistentEntries` | server.js:14 | under the invariant of `users` and the rooms (`Coordinator.Consistent`, exposed as `Server.Valid()`), every socket has at most one entry, and a socket that `find` locates is connected |
| `Coordinator.ConnectConsistent` | server.js:26 | a new connection, placed in its own room, keeps the invariant |
| `Coordinator.JoinConsistent` | server.js:49-65 | `join-class` adds the class room and replaces the socket's entry, and this keeps the invariant |
| `Coordinator.LeaveConsistent` | server.js:105-109 | `disconnect` keeps the invariant, whether or not the socket had an entry |
| `Coordinator.ClassroomLists` | server.js:56-67 | two joins to one class from distinct sockets yield the two-entry list and snapshot; the second socket's disconnect is found and leaves only the first entry |
| `Coordinator.Server.constructor` | server.js:14 | the server starts with no users and no connections, satisfying the invariant |
| `Coordinator.Server.Connect` | server.js:26 | a connecting socket enters the room named by its id; `users` is unchanged |
| `Coordinator.Server.JoinClass` | server.js:49-76 | a falsy class id changes nothing and emits nothing; otherwise the socket enters the class room, the entry list becomes `JoinUsers` of the old list and the new entry, and the room receives that list's class snapshot and then a `"<name> joined"` notice; the invariant is kept |
| `Coordinator.Server.Disconnect` | server.js:105-123 | the socket leaves every room; with no entry, `users` is unchanged and nothing is emitted; otherwise its entry is removed, and the remaining members of its class room receive the new class snapshot and then a `"<name> left"` notice; the invariant is kept |

## Left out

- Express, Next.js, the HTTP server, CORS and `listen` (server.js:2-24, 126-133) are framework and I/O setup, and are not modelled.
- `console.log` calls are diagnostics only.
- Network delivery, per-connection ordering across the network, and concurrent connections are not modelled. Each handler runs as one atomic step and returns its emissions as a sequence.
- `Date.now()`, `Math.random()` and `new Date().toISOString()` are clock and randomness. They become the `suffix` and `now` parameters, and participant ids are not proved unique.
- A missing (`undefined`) or `null` payload makes the destructuring in a handler throw a `TypeError`. socket.io runs the listener without catching it, so Node ends the process and `users` is lost. The model does not cover that crash: every payload is an object or another value whose fields read as `undefined`. A number, string or boolean payload is covered, because its fields are all `None` and the event is dropped.
- Fields of the wrong JavaScript type are not modelled: a numeric class id, or a non-string name that JavaScript would stringify. String fields are strings or missing.
- SDP, ICE and whiteboard-line contents, including the floating-point coordinates, are opaque types.
- The login and home pages (`app/login/page.tsx`, `app/page.tsx`) and the teacher and student views are browser UI and are not part of this model.
- Events arrive only from connected sockets, so `JoinClass` and `Disconnect` require the socket to be in the room map. `Connect` requires a socket id that is not already in use, because socket.io issues fresh ids.
