/** The server's mutable state, the module-level `users` list and socket.io's room
    membership, and the two handlers that change it: `join-class` and `disconnect`. */
module Coordinator {
  import opened Values
  import opened Seqs
  import opened Protocol
  import opened Presence

  /** The state invariant: one entry per socket; every entry is well formed and belongs to
      a connected socket that is in its class's room; every connected socket is in the
      room named by its id. */
  ghost predicate Consistent(users: seq<User>, rooms: Rooms)
  {
    UniqueSockets(users) &&
    (forall u :: u in users ==> u.classId != "" && u.name != "" && u.role != "") &&
    (forall u :: u in users ==> InRoom(rooms, u.socketId, u.classId)) &&
    (forall t :: t in rooms ==> InOwnRoom(rooms, t))
  }

  /** Under the invariant, every socket has at most one entry, and a socket that `find`
      locates is connected. */
  lemma ConsistentEntries(users: seq<User>, rooms: Rooms, s: SocketId)
    requires Consistent(users, rooms)
    ensures |EntriesOf(users, s)| <= 1
    ensures Find(users, s).Some? ==> s in rooms
  {
    AtMostOneEntry(users, s);
    if Find(users, s).Some? {
      assert Find(users, s).value in users;
    }
  }

  /** A new connection keeps the invariant. */
  lemma ConnectConsistent(users: seq<User>, rooms: Rooms, s: SocketId)
    requires Consistent(users, rooms) && s !in rooms
    ensures Consistent(users, rooms[s := {s}])
  {
  }

  /** `join-class` from a connected socket with a non-empty class id keeps the invariant. */
  lemma JoinConsistent(users: seq<User>, rooms: Rooms, s: SocketId, c: ClassId, u: User)
    requires Consistent(users, rooms) && s in rooms && c != ""
    requires u.socketId == s && u.classId == c && u.name != "" && u.role != ""
    ensures Consistent(JoinUsers(users, u), rooms[s := rooms[s] + {c}])
  {
    JoinUnique(users, u);
  }

  /** `disconnect` keeps the invariant, whether or not the socket had an entry. */
  lemma LeaveConsistent(users: seq<User>, rooms: Rooms, s: SocketId)
    requires Consistent(users, rooms)
    ensures Consistent(RemoveSocket(users, s), rooms - {s})
    ensures Find(users, s).None? ==> Consistent(users, rooms - {s})
  {
    var rest, left := RemoveSocket(users, s), rooms - {s};
    UniqueFilter(users, (v: User) => v.socketId != s);
    forall v | v in rest
      ensures v.classId != "" && v.name != "" && v.role != "" && InRoom(left, v.socketId, v.classId)
    {
      assert v in users && v.socketId != s;
    }
    forall t | t in left ensures t in left[t] {
      assert t in rooms && left[t] == rooms[t];
    }
    assert Consistent(rest, left);
    RemoveSocketLength(users, s);
  }

  class Server {
    var users: seq<User>
    var rooms: Rooms

    ghost predicate Valid()
      reads this
    {
      Consistent(users, rooms)
    }

    /** The server starts with no users and no connections. */
    constructor ()
      ensures Valid() && users == [] && rooms == map[]
    {
      users := [];
      rooms := map[];
    }

    /** A new connection: socket.io puts socket `s` in the room named by its id. */
    method Connect(s: SocketId)
      requires Valid() && s !in rooms
      modifies this
      ensures Valid()
      ensures users == old(users) && rooms == old(rooms)[s := {s}]
    {
      ConnectConsistent(users, rooms, s);
      rooms := rooms[s := {s}];
    }

    /** `join-class` from socket `s`. A falsy class id changes nothing and emits nothing.
        Otherwise `s` enters room `c`, its old entries give way to a fresh one at the end of
        the list, and room `c` gets the new snapshot of class `c` and a `joined` notice. */
    method JoinClass(s: SocketId, classId: Option<ClassId>, name: Option<string>, role: Option<string>,
                     suffix: string, now: Timestamp) returns (out: seq<Emission>)
      requires Valid() && s in rooms
      modifies this
      ensures Valid()
      ensures !Truthy(classId) ==> users == old(users) && rooms == old(rooms) && out == []
      ensures Truthy(classId) ==>
                var c := classId.value;
                var u := NewUser(s, c, name, role, suffix);
                rooms == old(rooms)[s := old(rooms)[s] + {c}] &&
                users == JoinUsers(old(users), u) &&
                out == Announce(rooms, c, users, u.name + " joined", now)
    {
      if !Truthy(classId) {
        return [];
      }
      var c := classId.value;
      var user := NewUser(s, c, name, role, suffix);
      JoinConsistent(users, rooms, s, c, user);
      rooms := rooms[s := rooms[s] + {c}];
      users := RemoveSocket(users, s);
      users := users + [user];
      var classUsers := InClass(users, c);
      out := [ToRoom(rooms, c, ParticipantsUpdate(classUsers)),
              ToRoom(rooms, c, ChatMessage(Some(SYSTEM), user.name + " joined", now))];
    }

    /** `disconnect` of socket `s`. socket.io has already taken `s` out of every room.
        A socket without an entry leaves `users` as it was and emits nothing; otherwise its
        entry is removed and its class's room gets the new snapshot and a `left` notice. */
    method Disconnect(s: SocketId, now: Timestamp) returns (out: seq<Emission>)
      requires Valid() && s in rooms
      modifies this
      ensures Valid()
      ensures rooms == old(rooms) - {s}
      ensures match Find(old(users), s)
                case None => users == old(users) && out == []
                case Some(u) =>
                  users == RemoveSocket(old(users), s) &&
                  out == Announce(rooms, u.classId, users, u.name + " left", now)
    {
      LeaveConsistent(users, rooms, s);
      rooms := rooms - {s};
      var user := Find(users, s);
      if user.Some? {
        var u := user.value;
        users := RemoveSocket(users, s);
        var classUsers := InClass(users, u.classId);
        out := [ToRoom(rooms, u.classId, ParticipantsUpdate(classUsers)),
                ToRoom(rooms, u.classId, ChatMessage(Some(SYSTEM), u.name + " left", now))];
      } else {
        out := [];
      }
    }
  }

  /** The lists the classroom scenario below goes through, for a teacher on socket `a`
      and a student on socket `b`, both in class `c`. */
  lemma ClassroomLists(alice: User, bob: User, c: ClassId)
    requires alice.socketId != bob.socketId && alice.classId == c && bob.classId == c
    ensures JoinUsers([], alice) == [alice] && InClass([alice], c) == [alice]
    ensures JoinUsers([alice], bob) == [alice, bob] && InClass([alice, bob], c) == [alice, bob]
    ensures Find([alice, bob], bob.socketId) == Some(bob) && RemoveSocket([alice, bob], bob.socketId) == [alice]
  {
    var b := bob.socketId;
    assert RemoveSocket([], alice.socketId) == [];
    FilterKeepsAll([alice], (u: User) => u.classId == c);
    FilterKeepsAll([alice], (u: User) => u.socketId != b);
    FilterKeepsAll([alice, bob], (u: User) => u.classId == c);
    assert [alice, bob][1..] == [bob];
    FilterConcat([alice], [bob], (u: User) => u.socketId != b);
    assert [alice] + [bob] == [alice, bob];
    assert Filter([bob], (u: User) => u.socketId != b) == [];
  }

  /** On a server where sockets `a` and `b` are connected and nobody has joined yet, two
      participants join class `c` and the second disconnects: each step's broadcast as each
      socket receives it. */
  method Classroom(server: Server, a: SocketId, b: SocketId, c: ClassId, t1: Timestamp, t2: Timestamp,
                   t3: Timestamp, k1: string, k2: string)
    requires server.Valid() && server.users == [] && a in server.rooms && b in server.rooms
    requires a != b && c != "" && !InRoom(server.rooms, b, c)
    modifies server
  {
    var alice := NewUser(a, c, Some("Alice"), Some("teacher"), k1);
    var bob := NewUser(b, c, Some("Bob"), None, k2);
    AliceJoins(server, alice, bob, c, t1, t2, t3, k1, k2);
  }

  /** Alice joins the empty class: only she receives the one-entry snapshot and her notice. */
  method AliceJoins(server: Server, alice: User, bob: User, c: ClassId, t1: Timestamp, t2: Timestamp,
                    t3: Timestamp, k1: string, k2: string)
    requires server.Valid() && server.users == [] && alice.socketId in server.rooms && bob.socketId in server.rooms
    requires alice.socketId != bob.socketId && c != "" && !InRoom(server.rooms, bob.socketId, c)
    requires alice == NewUser(alice.socketId, c, Some("Alice"), Some("teacher"), k1)
    requires bob == NewUser(bob.socketId, c, Some("Bob"), None, k2)
    modifies server
  {
    var a, b := alice.socketId, bob.socketId;
    assert JoinUsers([], alice) == [alice] && InClass([alice], c) == [alice] by {
      ClassroomLists(alice, bob, c);
    }
    var out1 := server.JoinClass(a, Some(c), Some("Alice"), Some("teacher"), k1, t1);
    assert server.users == [alice];
    assert InRoom(server.rooms, a, c) && !InRoom(server.rooms, b, c);
    assert alice.name + " joined" == "Alice joined";
    assert out1 == Announce(server.rooms, c, [alice], "Alice joined", t1);
    assert Inbox(out1, a) == [ParticipantsUpdate([alice]), ChatMessage(Some(SYSTEM), "Alice joined", t1)];
    assert Inbox(out1, b) == [];
    BobJoins(server, alice, bob, c, t2, t3, k2);
  }

  /** Bob joins the class Alice is in: both receive the two-entry snapshot and his notice. */
  method BobJoins(server: Server, alice: User, bob: User, c: ClassId, t2: Timestamp, t3: Timestamp, k2: string)
    requires server.Valid() && alice.socketId != bob.socketId && alice.classId == c && c != ""
    requires bob == NewUser(bob.socketId, c, Some("Bob"), None, k2)
    requires server.users == [alice] && InRoom(server.rooms, alice.socketId, c) && bob.socketId in server.rooms
    modifies server
  {
    var a, b := alice.socketId, bob.socketId;
    assert JoinUsers([alice], bob) == [alice, bob] && InClass([alice, bob], c) == [alice, bob] by {
      ClassroomLists(alice, bob, c);
    }
    var out2 := server.JoinClass(b, Some(c), Some("Bob"), None, k2, t2);
    assert bob.role == "student";
    assert server.users == [alice, bob];
    assert InRoom(server.rooms, a, c) && InRoom(server.rooms, b, c);
    assert bob.name + " joined" == "Bob joined";
    assert Inbox(out2, a) == [ParticipantsUpdate([alice, bob]), ChatMessage(Some(SYSTEM), "Bob joined", t2)];
    assert Inbox(out2, b) == Inbox(out2, a);
    BobLeaves(server, alice, bob, c, t3);
  }

  /** Bob disconnects: only Alice hears of it, and the snapshot lists only her. */
  method BobLeaves(server: Server, alice: User, bob: User, c: ClassId, t3: Timestamp)
    requires server.Valid() && alice.socketId != bob.socketId && alice.classId == c && bob.classId == c
    requires bob.name == "Bob"
    requires server.users == [alice, bob] && InRoom(server.rooms, alice.socketId, c) && bob.socketId in server.rooms
    modifies server
  {
    var a, b := alice.socketId, bob.socketId;
    assert Find([alice, bob], b) == Some(bob) && RemoveSocket([alice, bob], b) == [alice] && InClass([alice], c) == [alice] by {
      ClassroomLists(alice, bob, c);
    }
    var out3 := server.Disconnect(b, t3);
    assert server.users == [alice];
    assert InRoom(server.rooms, a, c) && !InRoom(server.rooms, b, c);
    assert bob.name + " left" == "Bob left";
    assert Inbox(out3, a) == [ParticipantsUpdate([alice]), ChatMessage(Some(SYSTEM), "Bob left", t3)];
    assert Inbox(out3, b) == [];
  }
}
