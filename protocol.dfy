/** The messages the server exchanges with its clients, and socket.io's room addressing. */
module Protocol {
  import opened Values

  /** A socket.io connection id. */
  type SocketId = string
  /** A class (room) identifier chosen by the clients. */
  type ClassId = string
  /** A server-assigned ISO-8601 time stamp, taken as given. */
  type Timestamp = string

  /** WebRTC session descriptions, ICE candidates and whiteboard strokes: the server
      never looks inside them. */
  type Sdp
  type Candidate
  type Line

  /** The `System` sender of presence notices. */
  const SYSTEM: string := "System"

  /** One entry of the module-level `users` list. */
  datatype User = User(id: string, socketId: SocketId, classId: ClassId, name: string, role: string)

  /** An event the server sends, with its payload. No outbound payload carries a class id. */
  datatype Event =
    | ParticipantsUpdate(participants: seq<User>)
    | ChatMessage(from: Option<string>, text: string, time: Timestamp)
    | WebrtcOffer(sdp: Sdp)
    | WebrtcAnswer(sdp: Sdp)
    | WebrtcIceCandidate(candidate: Candidate)
    | Draw(line: Line)
    | ClearBoard

  /** One `emit` call: the recipients it addresses and the event it sends. */
  datatype Emission = Emission(to: set<SocketId>, event: Event)

  /** Transport room membership: for every connected socket, the rooms it is in. */
  type Rooms = map<SocketId, set<string>>

  predicate InRoom(rooms: Rooms, t: SocketId, c: string)
  {
    t in rooms && c in rooms[t]
  }

  /** The sockets currently in room `c`. */
  function Members(rooms: Rooms, c: string): set<SocketId>
  {
    set t | t in rooms && c in rooms[t]
  }

  /** A socket that is connected is in the room named by its own id, as socket.io places it. */
  predicate InOwnRoom(rooms: Rooms, t: SocketId)
  {
    t in rooms ==> t in rooms[t]
  }

  /** `io.to(c).emit(e)`: every socket in the room. */
  function ToRoom(rooms: Rooms, c: string, e: Event): Emission
  {
    Emission(Members(rooms, c), e)
  }

  /** `socket.to(c).emit(e)` on the socket `sender`: socket.io sends to room `c` except the
      room named by the sender's id, so every socket that is in room `c` and not in room
      `sender`. */
  function ToOthers(rooms: Rooms, sender: SocketId, c: string, e: Event): (em: Emission)
    ensures em.event == e
    ensures forall t :: t in em.to <==> InRoom(rooms, t, c) && !InRoom(rooms, t, sender)
    ensures InOwnRoom(rooms, sender) ==> sender !in em.to
  {
    Emission(Members(rooms, c) - Members(rooms, sender), e)
  }

  /** When the sender is in its own room and no other socket has joined a room named by the
      sender's id, `socket.to(c)` reaches exactly room `c` without the sender. */
  lemma ToOthersAllButSender(rooms: Rooms, sender: SocketId, c: string, e: Event)
    requires InOwnRoom(rooms, sender)
    requires forall t :: t in rooms && t != sender ==> sender !in rooms[t]
    ensures ToOthers(rooms, sender, c, e).to == Members(rooms, c) - {sender}
  {
    var em := ToOthers(rooms, sender, c, e);
    forall t ensures t in em.to <==> t in Members(rooms, c) - {sender} {
      if t != sender && t in rooms {
        assert !InRoom(rooms, t, sender);
      }
    }
  }

  /** What socket `t` receives from the emissions `out`, in emission order. */
  function Inbox(out: seq<Emission>, t: SocketId): seq<Event>
  {
    if out == [] then []
    else (if t in out[0].to then [out[0].event] else []) + Inbox(out[1..], t)
  }

  /** What a socket receives from one `io.to(c)` emission. */
  lemma InboxToRoom(rooms: Rooms, c: string, e: Event, t: SocketId)
    ensures Inbox([ToRoom(rooms, c, e)], t) == if InRoom(rooms, t, c) then [e] else []
  {
    assert [ToRoom(rooms, c, e)][1..] == [];
  }

  /** What a socket receives from one `socket.to(c)` emission: nothing when it is in the
      sender's own room, the sender included. */
  lemma InboxToOthers(rooms: Rooms, sender: SocketId, c: string, e: Event, t: SocketId)
    ensures Inbox([ToOthers(rooms, sender, c, e)], t) ==
              if InRoom(rooms, t, c) && !InRoom(rooms, t, sender) then [e] else []
  {
    assert [ToOthers(rooms, sender, c, e)][1..] == [];
  }

  /** A socket's inbox from consecutive emissions is the concatenation of its inboxes. */
  lemma {:induction false} InboxConcat(a: seq<Emission>, b: seq<Emission>, t: SocketId)
    ensures Inbox(a + b, t) == Inbox(a, t) + Inbox(b, t)
  {
    if a == [] {
      assert a + b == b;
    } else {
      assert (a + b)[0] == a[0];
      assert (a + b)[1..] == a[1..] + b;
      InboxConcat(a[1..], b, t);
    }
  }
}
