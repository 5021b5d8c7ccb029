/** The `users` list: the filters the handlers apply to it, the entry `join-class` builds,
    the broadcast that follows a join or a leave, and what these preserve. */
module Presence {
  import opened Values
  import opened Seqs
  import opened Protocol

  /** `users.filter(u => u.socketId !== s)`: every entry except those of socket `s`. */
  function RemoveSocket(us: seq<User>, s: SocketId): (r: seq<User>)
    ensures |r| <= |us|
    ensures forall u :: u in r <==> u in us && u.socketId != s
  {
    Filter(us, (u: User) => u.socketId != s)
  }

  /** The entries of socket `s`, in list order. */
  function EntriesOf(us: seq<User>, s: SocketId): (r: seq<User>)
    ensures forall u :: u in r <==> u in us && u.socketId == s
  {
    Filter(us, (u: User) => u.socketId == s)
  }

  /** `users.filter(u => u.classId === c)`: the presence snapshot of class `c`. */
  function InClass(us: seq<User>, c: ClassId): (r: seq<User>)
    ensures |r| <= |us|
    ensures forall u :: u in r <==> u in us && u.classId == c
  {
    Filter(us, (u: User) => u.classId == c)
  }

  /** `users.find(u => u.socketId === s)`: the first entry of socket `s`, if any. */
  function Find(us: seq<User>, s: SocketId): (r: Option<User>)
    ensures r.None? <==> EntriesOf(us, s) == []
    ensures r.Some? ==> r.value == EntriesOf(us, s)[0]
  {
    if us == [] then None
    else if us[0].socketId == s then Some(us[0])
    else Find(us[1..], s)
  }

  /** At most one entry per socket. */
  ghost predicate UniqueSockets(us: seq<User>)
  {
    forall i, j :: 0 <= i < |us| && 0 <= j < |us| && us[i].socketId == us[j].socketId ==> i == j
  }

  /** The entry `join-class` creates for socket `s`: a missing or empty name becomes
      `Guest`, a missing or empty role `student`; the id starts with the socket id,
      and `suffix` stands for the time and random parts the server appends. */
  function NewUser(s: SocketId, c: ClassId, name: Option<string>, role: Option<string>, suffix: string): (u: User)
    ensures u.socketId == s && u.classId == c
    ensures u.name == (if Truthy(name) then name.value else "Guest") && u.name != ""
    ensures u.role == (if Truthy(role) then role.value else "student") && u.role != ""
    ensures |s| < |u.id| && u.id[..|s|] == s
  {
    User(s + "-" + suffix, s, c, Or(name, "Guest"), Or(role, "student"))
  }

  /** The list after `join-class` adds `u`: the old entries of its socket dropped, `u` pushed. */
  function JoinUsers(us: seq<User>, u: User): (r: seq<User>)
    ensures r != [] && r[|r| - 1] == u
    ensures forall v :: v in r <==> v == u || (v in us && v.socketId != u.socketId)
  {
    RemoveSocket(us, u.socketId) + [u]
  }

  /** The broadcast after a join or a leave in class `c`: the class's snapshot of `us`,
      then a notice from `System`, each to the whole room. */
  function Announce(rooms: Rooms, c: ClassId, us: seq<User>, text: string, now: Timestamp): (out: seq<Emission>)
    ensures |out| == 2
    ensures forall t {:trigger Inbox(out, t)} :: Inbox(out, t) ==
              if InRoom(rooms, t, c)
              then [ParticipantsUpdate(InClass(us, c)), ChatMessage(Some(SYSTEM), text, now)]
              else []
  {
    var snapshot := ToRoom(rooms, c, ParticipantsUpdate(InClass(us, c)));
    var notice := ToRoom(rooms, c, ChatMessage(Some(SYSTEM), text, now));
    forall t ensures Inbox([snapshot, notice], t) == Inbox([snapshot], t) + Inbox([notice], t) {
      InboxConcat([snapshot], [notice], t);
      assert [snapshot] + [notice] == [snapshot, notice];
    }
    forall t ensures Inbox([snapshot], t) == (if InRoom(rooms, t, c) then [snapshot.event] else []) {
      InboxToRoom(rooms, c, snapshot.event, t);
    }
    forall t ensures Inbox([notice], t) == (if InRoom(rooms, t, c) then [notice.event] else []) {
      InboxToRoom(rooms, c, notice.event, t);
    }
    [snapshot, notice]
  }

  /** Appending to the list uniquely keyed by socket keeps it so when the keys are disjoint. */
  lemma UniqueConcat(a: seq<User>, b: seq<User>)
    requires UniqueSockets(a) && UniqueSockets(b)
    requires forall x, y :: x in a && y in b ==> x.socketId != y.socketId
    ensures UniqueSockets(a + b)
  {
    var ab := a + b;
    forall i, j | 0 <= i < |ab| && 0 <= j < |ab| && ab[i].socketId == ab[j].socketId
      ensures i == j
    {
      if i < |a| && j < |a| {
        assert ab[i] == a[i] && ab[j] == a[j];
      } else if i >= |a| && j >= |a| {
        assert ab[i] == b[i - |a|] && ab[j] == b[j - |a|];
      }
    }
  }

  /** Dropping entries keeps the list uniquely keyed by socket. */
  lemma {:induction false} UniqueFilter(us: seq<User>, p: User -> bool)
    requires UniqueSockets(us)
    ensures UniqueSockets(Filter(us, p))
  {
    if us != [] {
      var tail := us[1..];
      forall i, j | 0 <= i < |tail| && 0 <= j < |tail| && tail[i].socketId == tail[j].socketId
        ensures i == j
      {
        assert us[i + 1] == tail[i] && us[j + 1] == tail[j];
      }
      UniqueFilter(tail, p);
      var rest := Filter(tail, p);
      if p(us[0]) {
        forall x, y | x in [us[0]] && y in rest ensures x.socketId != y.socketId {
          assert y in tail;
          var k :| 0 <= k < |tail| && tail[k] == y;
          assert us[k + 1] == y;
        }
        UniqueConcat([us[0]], rest);
      } else {
        assert Filter(us, p) == rest;
      }
    }
  }

  /** Under the invariant, a socket has at most one entry. */
  lemma {:induction false} AtMostOneEntry(us: seq<User>, s: SocketId)
    requires UniqueSockets(us)
    ensures |EntriesOf(us, s)| <= 1
  {
    if us != [] {
      var tail := us[1..];
      forall i, j | 0 <= i < |tail| && 0 <= j < |tail| && tail[i].socketId == tail[j].socketId
        ensures i == j
      {
        assert us[i + 1] == tail[i] && us[j + 1] == tail[j];
      }
      var p := (u: User) => u.socketId == s;
      assert EntriesOf(us, s) == (if p(us[0]) then [us[0]] else []) + Filter(tail, p);
      if us[0].socketId == s {
        forall x | x in tail ensures !p(x) {
          var k :| 0 <= k < |tail| && tail[k] == x;
          assert us[k + 1] == x;
        }
        FilterDropsAll(tail, p);
      } else {
        AtMostOneEntry(tail, s);
      }
    }
  }

  /** After removal no entry of the socket remains, and every other socket's entries are untouched. */
  lemma RemoveSocketEntries(us: seq<User>, s: SocketId, t: SocketId)
    ensures EntriesOf(RemoveSocket(us, s), s) == []
    ensures t != s ==> EntriesOf(RemoveSocket(us, s), t) == EntriesOf(us, t)
  {
    FilterDropsAll(RemoveSocket(us, s), (u: User) => u.socketId == s);
    if t != s {
      FilterNarrow(us, (u: User) => u.socketId != s, (u: User) => u.socketId == t);
    }
  }

  /** Removing a socket that has an entry shortens a uniquely keyed list by exactly one;
      removing one that has none changes nothing. */
  lemma RemoveSocketLength(us: seq<User>, s: SocketId)
    requires UniqueSockets(us)
    ensures Find(us, s).Some? ==> |RemoveSocket(us, s)| == |us| - 1
    ensures Find(us, s).None? ==> RemoveSocket(us, s) == us
  {
    AtMostOneEntry(us, s);
    FilterPartition(us, (u: User) => u.socketId == s, (u: User) => u.socketId != s);
    if Find(us, s).None? {
      assert forall x :: x in us ==> x.socketId != s;
      FilterKeepsAll(us, (u: User) => u.socketId != s);
    }
  }

  /** `join-class` keeps the list uniquely keyed by socket. */
  lemma JoinUnique(us: seq<User>, u: User)
    requires UniqueSockets(us)
    ensures UniqueSockets(JoinUsers(us, u))
  {
    var rest := RemoveSocket(us, u.socketId);
    UniqueFilter(us, (v: User) => v.socketId != u.socketId);
    UniqueConcat(rest, [u]);
  }

  /** After `join-class` the joining socket has exactly one entry, the new one, at the end of
      the list, and everything else the list held is still there in its old order. */
  lemma JoinEntries(us: seq<User>, u: User)
    ensures EntriesOf(JoinUsers(us, u), u.socketId) == [u]
    ensures JoinUsers(us, u)[|JoinUsers(us, u)| - 1] == u
    ensures RemoveSocket(JoinUsers(us, u), u.socketId) == RemoveSocket(us, u.socketId)
  {
    var s := u.socketId;
    var rest := RemoveSocket(us, s);
    FilterConcat(rest, [u], (v: User) => v.socketId == s);
    RemoveSocketEntries(us, s, s);
    FilterConcat(rest, [u], (v: User) => v.socketId != s);
    FilterKeepsAll(rest, (v: User) => v.socketId != s);
  }

  /** `join-class` from socket `s` leaves the entries of every other socket as they were. */
  lemma JoinOthers(us: seq<User>, u: User, t: SocketId)
    requires t != u.socketId
    ensures EntriesOf(JoinUsers(us, u), t) == EntriesOf(us, t)
  {
    var rest := RemoveSocket(us, u.socketId);
    FilterConcat(rest, [u], (v: User) => v.socketId == t);
    RemoveSocketEntries(us, u.socketId, t);
  }

  /** After socket `s` leaves, the snapshot of any class holds no entry of `s`. */
  lemma LeaveSnapshot(us: seq<User>, s: SocketId, c: ClassId)
    ensures forall v :: v in InClass(RemoveSocket(us, s), c) ==> v.socketId != s && v in us && v.classId == c
  {
  }

  /** Every entry of a snapshot belongs to a socket in the room that receives the snapshot,
      so a snapshot never lists a participant that cannot see it. */
  lemma SnapshotInRoom(rooms: Rooms, us: seq<User>, c: ClassId)
    requires forall u :: u in us ==> InRoom(rooms, u.socketId, u.classId)
    ensures forall u :: u in InClass(us, c) ==> u.socketId in Members(rooms, c)
  {
  }
}
