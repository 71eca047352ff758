/**
 * What the server's handlers guarantee: the invariants they keep, what each one changes and
 * what it leaves alone, who hears about it, and a whole session run end to end.
 */
module RegistryLemmas {
  import opened Common
  import opened Text
  import opened Registry

  // ---------------------------------------------------------------------------------------
  // Membership and the index

  /** A socket listed in a room's users is indexed to that room. */
  lemma MemberIsIndexed(st: State, c: Code, s: SocketId)
    requires Indexed(st)
    requires c in st.rooms && s in IdSet(st.rooms[c].users)
    ensures s in st.userSockets && st.userSockets[s].roomCode == c
  {
    var m :| m in st.rooms[c].users && m.id == s;
  }

  /** A socket is a member of at most one room. */
  lemma AtMostOneRoom(st: State, s: SocketId, c1: Code, c2: Code)
    requires Valid(st)
    requires c1 in st.rooms && s in IdSet(st.rooms[c1].users)
    requires c2 in st.rooms && s in IdSet(st.rooms[c2].users)
    ensures c1 == c2
  {
    MemberIsIndexed(st, c1, s);
    MemberIsIndexed(st, c2, s);
  }

  /** Distinct keys: as many keys as entries. */
  lemma {:induction false} IdSetSize(users: seq<Member>)
    requires UniqueIds(users)
    ensures |IdSet(users)| == |users|
  {
    if users != [] {
      var rest := users[1..];
      assert users == [users[0]] + rest;
      IdSetAppend([users[0]], rest);
      assert IdSet([users[0]]) == {users[0].id};
      assert UniqueIds(rest) by {
        forall i, j | 0 <= i < j < |rest| ensures rest[i].id != rest[j].id {
          assert rest[i] == users[i + 1] && rest[j] == users[j + 1];
        }
      }
      IdSetSize(rest);
      assert users[0].id !in IdSet(rest);
    }
  }

  /**
   * When every index entry is backed by a membership, the transport's room for `c` is
   * exactly the room's user keys, so the count the server reports is the number of sockets
   * joined to `c`.
   */
  lemma CountMatchesChannel(st: State, c: Code)
    requires Valid(st) && Synced(st)
    requires c in st.rooms
    ensures Channel(st.userSockets, c) == IdSet(st.rooms[c].users)
    ensures |st.rooms[c].users| == |Channel(st.userSockets, c)|
  {
    forall s | s in IdSet(st.rooms[c].users) ensures s in Channel(st.userSockets, c) {
      MemberIsIndexed(st, c, s);
    }
    IdSetSize(st.rooms[c].users);
  }

  // ---------------------------------------------------------------------------------------
  // create-room

  /** Creating a room keeps the invariant, even when it replaces an occupied room. */
  lemma CreateRoomKeepsValid(st: State, code: Code, now: int)
    requires Valid(st)
    ensures Valid(CreateRoom(st, code, now))
  {
  }

  /**
   * The new room is empty and stored under `code`, whether or not a room was there; no other
   * room and no index entry changes.
   */
  lemma CreateRoomReplaces(st: State, code: Code, now: int)
    ensures var next := CreateRoom(st, code, now);
      && next.rooms.Keys == st.rooms.Keys + {code}
      && next.rooms[code] == Room(code, [], now)
      && (forall c :: c in st.rooms && c != code ==> next.rooms[c] == st.rooms[c])
      && next.userSockets == st.userSockets
  {
  }

  /** A create-room under an unused code keeps every index entry backed by a membership. */
  lemma CreateFreshRoomKeepsSynced(st: State, code: Code, now: int)
    requires Synced(st) && code !in st.rooms
    ensures Synced(CreateRoom(st, code, now))
  {
  }

  /**
   * A create-room under the code of an occupied room drops its members from the room while
   * their sockets stay indexed to that code.
   */
  lemma OverwriteStrandsMembers(st: State, code: Code, now: int)
    requires Valid(st)
    requires code in st.rooms && st.rooms[code].users != []
    ensures var next := CreateRoom(st, code, now);
      && next.rooms[code].users == []
      && !Synced(next)
  {
    var m := st.rooms[code].users[0];
    assert m in st.rooms[code].users;
    var next := CreateRoom(st, code, now);
    assert m.id in next.userSockets && next.userSockets[m.id].roomCode == code;
    assert m.id !in IdSet(next.rooms[code].users);
  }

  // ---------------------------------------------------------------------------------------
  // GET /api/room/:code

  /** The existence query ignores the case of the code it is given. */
  lemma QueryRoomIgnoresCase(st: State, code: string)
    ensures QueryRoom(st, code) == QueryRoom(st, ToUpper(code))
  {
    ToUpperIdempotent(code);
  }

  /**
   * While every index entry is backed by a membership, the count the query reports is the
   * number of sockets joined to the room.
   */
  lemma QueryRoomCountsJoined(st: State, code: string)
    requires Valid(st) && Synced(st)
    ensures QueryRoom(st, code) ==
      if ToUpper(code) in st.rooms then Exists(|Channel(st.userSockets, ToUpper(code))|) else Missing
  {
    if ToUpper(code) in st.rooms {
      CountMatchesChannel(st, ToUpper(code));
    }
  }

  // ---------------------------------------------------------------------------------------
  // join-room

  /** The handler upper-cases the code it is given, so a join ignores its case. */
  lemma JoinIgnoresCase(st: State, s: SocketId, roomCode: string, userName: string, now: int)
    ensures Join(st, s, roomCode, userName, now) == Join(st, s, ToUpper(roomCode), userName, now)
  {
    ToUpperIdempotent(roomCode);
  }

  /**
   * Joining a code with no room answers the requester alone with an error and changes
   * nothing: no room is created and no count moves.
   */
  lemma JoinMissingRoom(st: State, s: SocketId, roomCode: string, userName: string, now: int)
    requires ToUpper(roomCode) !in st.rooms
    ensures Join(st, s, roomCode, userName, now) == Step(st, [Delivery(Error(RoomNotFound), {s})])
  {
  }

  /** After a join the socket has left every other room, and only it. */
  lemma JoinLeavesOtherRooms(st: State, s: SocketId, roomCode: string, userName: string, now: int)
    requires Valid(st) && ToUpper(roomCode) in st.rooms
    ensures var next := Join(st, s, roomCode, userName, now).next;
      && next.rooms.Keys == st.rooms.Keys
      && forall c :: c in st.rooms && c != ToUpper(roomCode) ==>
           next.rooms[c] == st.rooms[c].(users := Remove(st.rooms[c].users, s))
  {
    var next := Join(st, s, roomCode, userName, now).next;
    forall c | c in st.rooms && c != ToUpper(roomCode)
      ensures next.rooms[c] == st.rooms[c].(users := Remove(st.rooms[c].users, s))
    {
      if s in IdSet(st.rooms[c].users) {
        MemberIsIndexed(st, c, s);
      }
    }
  }

  /**
   * The joiner is appended to the target room, after every member already there; if it was
   * already a member it moves to the end. The index points it at the target room.
   */
  lemma JoinAppends(st: State, s: SocketId, roomCode: string, userName: string, now: int)
    requires Valid(st) && ToUpper(roomCode) in st.rooms
    ensures var code := ToUpper(roomCode);
      var next := Join(st, s, roomCode, userName, now).next;
      && next.rooms[code] == st.rooms[code].(users := Remove(st.rooms[code].users, s) + [Member(s, userName, None, now)])
      && next.userSockets == st.userSockets[s := Binding(code, userName)]
  {
    var code := ToUpper(roomCode);
    if s in IdSet(st.rooms[code].users) {
      MemberIsIndexed(st, code, s);
    }
    PutAppends(LeavePrevious(st, s).next.rooms[code].users, Member(s, userName, None, now));
  }

  /**
   * A join first tells the room the socket was indexed to, if it still exists, that the
   * socket left; that notice goes to the room's other sockets and is the only emit aimed at
   * that room.
   */
  lemma JoinNoticesLeave(st: State, s: SocketId, roomCode: string, userName: string, now: int)
    requires Valid(st) && ToUpper(roomCode) in st.rooms
    ensures var r := Join(st, s, roomCode, userName, now);
      var leaves := s in st.userSockets && st.userSockets[s].roomCode in st.rooms;
      && |r.sent| == (if leaves then 4 else 3)
      && (leaves ==> r.sent[0] == Delivery(UserLeft(s, st.userSockets[s].userName),
                                           Channel(st.userSockets, st.userSockets[s].roomCode) - {s}))
  {
  }

  /** A join's emits: those of leaving the previous room, then the three of entering the new one. */
  lemma JoinSends(st: State, s: SocketId, roomCode: string, userName: string, now: int)
    requires ToUpper(roomCode) in st.rooms
    ensures var code := ToUpper(roomCode);
      var r := Join(st, s, roomCode, userName, now);
      var users := r.next.rooms[code].users;
      var channel := Channel(r.next.userSockets, code);
      r.sent == LeavePrevious(st, s).sent + [Delivery(RoomJoined(code, users), {s}),
                                             Delivery(UserJoined(s, userName), channel - {s}),
                                             Delivery(UserCountUpdated(|users|), channel)]
  {
  }

  /**
   * Then the joiner alone gets a snapshot of the target room's users after the join (which
   * end with the joiner, by `JoinAppends`), the room's other sockets hear `user-joined`, and
   * all of the room's sockets, the joiner included, get the room's new size. No count goes
   * anywhere else.
   */
  lemma JoinAnnounces(st: State, s: SocketId, roomCode: string, userName: string, now: int)
    requires Valid(st) && ToUpper(roomCode) in st.rooms
    ensures var code := ToUpper(roomCode);
      var r := Join(st, s, roomCode, userName, now);
      var users := r.next.rooms[code].users;
      var channel := Channel(r.next.userSockets, code);
      && |r.sent| >= 3
      && r.sent[|r.sent| - 3] == Delivery(RoomJoined(code, users), {s})
      && r.sent[|r.sent| - 2] == Delivery(UserJoined(s, userName), channel - {s})
      && r.sent[|r.sent| - 1] == Delivery(UserCountUpdated(|users|), channel)
      && forall i :: 0 <= i < |r.sent| && r.sent[i].event.UserCountUpdated? ==> r.sent[i].audience == channel
  {
    var code := ToUpper(roomCode);
    var r := Join(st, s, roomCode, userName, now);
    var left := LeavePrevious(st, s);
    var users := r.next.rooms[code].users;
    var channel := Channel(r.next.userSockets, code);
    var tail := [Delivery(RoomJoined(code, users), {s}),
                 Delivery(UserJoined(s, userName), channel - {s}),
                 Delivery(UserCountUpdated(|users|), channel)];
    assert r.sent == left.sent + tail;
    assert forall i :: 0 <= i < |left.sent| ==> left.sent[i].event.UserLeft?;
  }

  /**
   * Moving socket `s` into room `code` as `joiner`, out of every other room, and pointing its
   * index entry at `code` keeps the invariant.
   */
  lemma MoveKeepsValid(st: State, next: State, code: Code, joiner: Member)
    requires Valid(st) && code in st.rooms
    requires next.rooms.Keys == st.rooms.Keys
    requires next.userSockets == st.userSockets[joiner.id := Binding(code, joiner.name)]
    requires next.rooms[code] == st.rooms[code].(users := Remove(st.rooms[code].users, joiner.id) + [joiner])
    requires forall c :: c in st.rooms && c != code ==>
      next.rooms[c] == st.rooms[c].(users := Remove(st.rooms[c].users, joiner.id))
    ensures Valid(next)
  {
    var kept := Remove(st.rooms[code].users, joiner.id);
    RemoveIds(st.rooms[code].users, joiner.id);
    RemoveKeepsUnique(st.rooms[code].users, joiner.id);
    forall c | c in next.rooms && c != code ensures UniqueIds(next.rooms[c].users) {
      RemoveKeepsUnique(st.rooms[c].users, joiner.id);
    }
    forall c, m | c in next.rooms && m in next.rooms[c].users
      ensures m.id in next.userSockets && next.userSockets[m.id] == Binding(c, m.name)
    {
      if c == code {
        if m != joiner {
          assert m in kept;
        }
      } else {
        assert m in Remove(st.rooms[c].users, joiner.id);
      }
    }
    AppendFreshKeepsUnique(kept, joiner);
  }

  /** A join keeps the invariant. */
  lemma JoinKeepsValid(st: State, s: SocketId, roomCode: string, userName: string, now: int)
    requires Valid(st)
    ensures Valid(Join(st, s, roomCode, userName, now).next)
  {
    if ToUpper(roomCode) in st.rooms {
      JoinLeavesOtherRooms(st, s, roomCode, userName, now);
      JoinAppends(st, s, roomCode, userName, now);
      MoveKeepsValid(st, Join(st, s, roomCode, userName, now).next, ToUpper(roomCode),
                     Member(s, userName, None, now));
    }
  }

  /** A join keeps every index entry backed by a membership. */
  lemma JoinKeepsSynced(st: State, s: SocketId, roomCode: string, userName: string, now: int)
    requires Valid(st) && Synced(st)
    ensures Synced(Join(st, s, roomCode, userName, now).next)
  {
    var code := ToUpper(roomCode);
    if code in st.rooms {
      var next := Join(st, s, roomCode, userName, now).next;
      JoinLeavesOtherRooms(st, s, roomCode, userName, now);
      JoinAppends(st, s, roomCode, userName, now);
      forall t | t in next.userSockets
        ensures next.userSockets[t].roomCode in next.rooms
        ensures t in IdSet(next.rooms[next.userSockets[t].roomCode].users)
      {
        if t != s {
          var c := st.userSockets[t].roomCode;
          assert t in IdSet(st.rooms[c].users);
          IdSetAppend(Remove(st.rooms[code].users, s), [Member(s, userName, None, now)]);
        } else {
          IdSetAppend(Remove(st.rooms[code].users, s), [Member(s, userName, None, now)]);
        }
      }
    }
  }

  // ---------------------------------------------------------------------------------------
  // location-update

  /** The handler upper-cases the code it is given, so an update ignores its case. */
  lemma LocationUpdateIgnoresCase(st: State, s: SocketId, roomCode: string, location: Location, now: int)
    ensures LocationUpdate(st, s, roomCode, location, now) == LocationUpdate(st, s, ToUpper(roomCode), location, now)
  {
    ToUpperIdempotent(roomCode);
  }

  /**
   * An update from a socket that is not a member of the named room, or naming no room, is
   * dropped: nothing changes and nothing is sent.
   */
  lemma LocationUpdateIgnoresStrangers(st: State, s: SocketId, roomCode: string, location: Location, now: int)
    requires !(ToUpper(roomCode) in st.rooms && s in IdSet(st.rooms[ToUpper(roomCode)].users))
    ensures LocationUpdate(st, s, roomCode, location, now) == Step(st, [])
  {
  }

  /**
   * An update from a member changes that member's location and last-seen time and nothing
   * else: same rooms, same order, same keys and names, same index. The new location goes,
   * under the name the member joined with, to every other socket of the room and not back to
   * the sender.
   */
  lemma LocationUpdateMovesOnlySender(st: State, s: SocketId, roomCode: string, location: Location, now: int)
    requires Valid(st)
    requires ToUpper(roomCode) in st.rooms && s in IdSet(st.rooms[ToUpper(roomCode)].users)
    ensures var code := ToUpper(roomCode);
      var r := LocationUpdate(st, s, roomCode, location, now);
      var before := st.rooms[code].users;
      var after := r.next.rooms[code].users;
      && r.next.userSockets == st.userSockets
      && r.next.rooms.Keys == st.rooms.Keys
      && (forall c :: c in st.rooms && c != code ==> r.next.rooms[c] == st.rooms[c])
      && r.next.rooms[code] == st.rooms[code].(users := after)
      && |after| == |before|
      && (forall i :: 0 <= i < |before| && before[i].id != s ==> after[i] == before[i])
      && (forall i :: 0 <= i < |before| && before[i].id == s ==>
            after[i] == before[i].(location := Some(location), lastSeen := now))
      && r.sent == [Delivery(UserLocationUpdated(s, st.userSockets[s].userName, location),
                             Channel(st.userSockets, code) - {s})]
  {
    var code := ToUpper(roomCode);
    var user := Find(st.rooms[code].users, s);
    assert user in st.rooms[code].users;
  }

  /**
   * Replacing a room's users by a list with the same keys and names in the same order keeps
   * the invariant and every index entry's backing membership.
   */
  lemma SameRosterKeepsValid(st: State, next: State, code: Code, after: seq<Member>)
    requires Valid(st) && code in st.rooms
    requires next == st.(rooms := st.rooms[code := st.rooms[code].(users := after)])
    requires |after| == |st.rooms[code].users|
    requires forall i :: 0 <= i < |after| ==>
      after[i].id == st.rooms[code].users[i].id && after[i].name == st.rooms[code].users[i].name
    ensures Valid(next) && (Synced(st) ==> Synced(next))
  {
    var before := st.rooms[code].users;
    forall m | m in after
      ensures m.id in next.userSockets && next.userSockets[m.id] == Binding(code, m.name)
    {
      var i :| 0 <= i < |after| && after[i] == m;
      assert before[i] in before;
    }
    assert IdSet(after) == IdSet(before) by {
      forall t | t in IdSet(before) ensures t in IdSet(after) {
        var m :| m in before && m.id == t;
        var i :| 0 <= i < |before| && before[i] == m;
        assert after[i] in after;
      }
    }
  }

  /** A location update keeps the invariant and every index entry's backing membership. */
  lemma LocationUpdateKeepsValid(st: State, s: SocketId, roomCode: string, location: Location, now: int)
    requires Valid(st)
    ensures var next := LocationUpdate(st, s, roomCode, location, now).next;
      Valid(next) && (Synced(st) ==> Synced(next))
  {
    var code := ToUpper(roomCode);
    if code in st.rooms && s in IdSet(st.rooms[code].users) {
      var next := LocationUpdate(st, s, roomCode, location, now).next;
      LocationUpdateMovesOnlySender(st, s, roomCode, location, now);
      SameRosterKeepsValid(st, next, code, next.rooms[code].users);
    }
  }

  // ---------------------------------------------------------------------------------------
  // disconnect

  /** A socket that never joined, or already left, disconnects without any effect. */
  lemma DisconnectUnknownIsNoop(st: State, s: SocketId)
    requires s !in st.userSockets
    ensures Disconnect(st, s) == Step(st, [])
  {
  }

  /**
   * After a disconnect the socket is in no room and has no index entry, even when the room
   * its entry named is already gone. Rooms other than that one are untouched and no room is
   * created.
   */
  lemma DisconnectForgets(st: State, s: SocketId)
    requires Valid(st) && s in st.userSockets
    ensures var next := Disconnect(st, s).next;
      && next.userSockets == st.userSockets - {s}
      && next.rooms.Keys <= st.rooms.Keys
      && (forall c :: c in st.rooms && c != st.userSockets[s].roomCode ==>
            c in next.rooms && next.rooms[c] == st.rooms[c])
      && (forall c :: c in next.rooms ==> s !in IdSet(next.rooms[c].users))
  {
    var next := Disconnect(st, s).next;
    forall c | c in next.rooms ensures s !in IdSet(next.rooms[c].users) {
      if s in IdSet(st.rooms[c].users) {
        MemberIsIndexed(st, c, s);
      }
    }
  }

  /**
   * When the socket's room still exists, its other sockets hear `user-left` under the
   * indexed name and then the room's new size, and the room is deleted exactly when no user
   * is left in it. When the room is gone nothing is sent.
   */
  lemma DisconnectLeavesRoom(st: State, s: SocketId)
    requires s in st.userSockets
    ensures var r := Disconnect(st, s);
      var b := st.userSockets[s];
      var remaining := if b.roomCode in st.rooms then Remove(st.rooms[b.roomCode].users, s) else [];
      var audience := Channel(r.next.userSockets, b.roomCode);
      && s !in audience
      && (b.roomCode !in st.rooms ==> r.sent == [] && r.next.rooms == st.rooms)
      && (b.roomCode in st.rooms ==>
            && (b.roomCode in r.next.rooms <==> remaining != [])
            && (b.roomCode in r.next.rooms ==>
                  r.next.rooms[b.roomCode] == st.rooms[b.roomCode].(users := remaining))
            && r.sent == [Delivery(UserLeft(s, b.userName), audience),
                          Delivery(UserCountUpdated(|remaining|), audience)])
  {
  }

  /** A disconnect keeps the invariant and every index entry's backing membership. */
  lemma DisconnectKeepsValid(st: State, s: SocketId)
    requires Valid(st)
    ensures var next := Disconnect(st, s).next;
      Valid(next) && (Synced(st) ==> Synced(next))
  {
    if s in st.userSockets {
      var next := Disconnect(st, s).next;
      DisconnectForgets(st, s);
      var c := st.userSockets[s].roomCode;
      if c in next.rooms {
        RemoveKeepsUnique(st.rooms[c].users, s);
        forall m | m in next.rooms[c].users
          ensures m.id in next.userSockets && next.userSockets[m.id] == Binding(c, m.name)
        {
          assert m in st.rooms[c].users;
        }
      }
      if Synced(st) {
        forall t | t in next.userSockets
          ensures next.userSockets[t].roomCode in next.rooms
          ensures t in IdSet(next.rooms[next.userSockets[t].roomCode].users)
        {
          var d := st.userSockets[t].roomCode;
          assert t in IdSet(st.rooms[d].users);
          if d == c {
            RemoveIds(st.rooms[c].users, s);
          }
        }
      }
    }
  }

  // ---------------------------------------------------------------------------------------
  // Runs of requests

  /** Every handler keeps the invariant. */
  lemma HandleKeepsValid(st: State, req: Request)
    requires Valid(st)
    ensures Valid(Handle(st, req).next)
  {
    match req
    case CreateRoomRequest(code, now) => CreateRoomKeepsValid(st, code, now);
    case JoinRequest(s, roomCode, userName, now) => JoinKeepsValid(st, s, roomCode, userName, now);
    case LocationRequest(s, roomCode, location, now) => LocationUpdateKeepsValid(st, s, roomCode, location, now);
    case DisconnectRequest(s) => DisconnectKeepsValid(st, s);
  }

  /** Any run of requests from a valid state ends in a valid state. */
  lemma {:induction false} RunKeepsValid(st: State, reqs: seq<Request>)
    requires Valid(st)
    ensures Valid(Run(st, reqs).next)
    decreases |reqs|
  {
    if reqs != [] {
      HandleKeepsValid(st, reqs[0]);
      RunKeepsValid(Handle(st, reqs[0]).next, reqs[1..]);
    }
  }

  /** Each create-room of the run uses a code that is unused when it runs. */
  ghost predicate CreatesFresh(st: State, reqs: seq<Request>)
    decreases |reqs|
  {
    reqs == [] ||
    ((reqs[0].CreateRoomRequest? ==> reqs[0].code !in st.rooms) &&
     CreatesFresh(Handle(st, reqs[0]).next, reqs[1..]))
  }

  /**
   * As long as no create-room reuses a live code, every index entry stays backed by a
   * membership, so every count the server reports is the number of joined sockets.
   */
  lemma {:induction false} RunKeepsSynced(st: State, reqs: seq<Request>)
    requires Valid(st) && Synced(st) && CreatesFresh(st, reqs)
    ensures Synced(Run(st, reqs).next)
    decreases |reqs|
  {
    if reqs != [] {
      var next := Handle(st, reqs[0]).next;
      match reqs[0] {
        case CreateRoomRequest(code, now) => CreateFreshRoomKeepsSynced(st, code, now);
        case JoinRequest(s, roomCode, userName, now) => JoinKeepsSynced(st, s, roomCode, userName, now);
        case LocationRequest(s, roomCode, location, now) => LocationUpdateKeepsValid(st, s, roomCode, location, now);
        case DisconnectRequest(s) => DisconnectKeepsValid(st, s);
      }
      HandleKeepsValid(st, reqs[0]);
      RunKeepsSynced(next, reqs[1..]);
    }
  }
}
