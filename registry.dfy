/**
 * The server's shared state (`rooms` and `userSockets` in server/index.js) and its four
 * handlers, as functions from the state before a handler runs to the state after it and the
 * events it emitted. Node runs every handler to completion before the next one starts, so a
 * handler is one step of a sequential state machine.
 *
 * Audiences. The transport's room named `c` holds exactly the sockets whose `userSockets`
 * entry names `c`: the source calls `socket.join(code)` and `socket.leave(previous)` exactly
 * where it sets the index entry, and the transport drops a closing socket from every room
 * before its `disconnect` handler runs. So `socket.to(c)` is `Channel(index, c) - {sender}`
 * and `io.to(c)` is `Channel(index, c)`.
 */
module Registry {
  import opened Common
  import opened Text

  type SocketId = string
  type Code = string

  /** One value of a room's `users` map, keyed by `id`. */
  datatype Member = Member(id: SocketId, name: string, location: Option<Location>, lastSeen: int)

  /**
   * A room `{code, users, createdAt}`. `users` lists the map's entries in insertion order,
   * which is the order `Array.from(room.users.values())` reports them in.
   */
  datatype Room = Room(code: Code, users: seq<Member>, createdAt: int)

  /** A value of `userSockets`: the room a socket last joined and the name it joined with. */
  datatype Binding = Binding(roomCode: Code, userName: string)

  /** The payloads the server emits, one constructor per event name. */
  datatype Event =
    | Error(message: string)
    | RoomJoined(roomCode: Code, users: seq<Member>)
    | UserJoined(userId: SocketId, userName: string)
    | UserLeft(userId: SocketId, userName: string)
    | UserLocationUpdated(userId: SocketId, userName: string, location: Location)
    | UserCountUpdated(count: nat)

  /** One emit: an event and the sockets it is addressed to. */
  datatype Delivery = Delivery(event: Event, audience: set<SocketId>)

  datatype State = State(rooms: map<Code, Room>, userSockets: map<SocketId, Binding>)

  /** What one handler did: the state it left and the emits it made, in order. */
  datatype Step = Step(next: State, sent: seq<Delivery>)

  /** The body of `GET /api/room/:code`. */
  datatype RoomInfo = Missing | Exists(userCount: nat)

  const RoomNotFound: string := "Room not found"

  const Empty: State := State(map[], map[])

  // ---------------------------------------------------------------------------------------
  // A room's `users` map

  function IdSet(users: seq<Member>): set<SocketId>
  {
    set m | m in users :: m.id
  }

  /** Keys of a Map are distinct. */
  ghost predicate UniqueIds(users: seq<Member>)
  {
    forall i, j :: 0 <= i < j < |users| ==> users[i].id != users[j].id
  }

  /** `users.delete(id)`. */
  function Remove(users: seq<Member>, id: SocketId): (r: seq<Member>)
    ensures forall m :: m in r <==> m in users && m.id != id
    ensures |r| <= |users|
    ensures id !in IdSet(users) ==> r == users
  {
    if users == [] then []
    else if users[0].id == id then Remove(users[1..], id)
    else [users[0]] + Remove(users[1..], id)
  }

  lemma RemoveIds(users: seq<Member>, id: SocketId)
    ensures IdSet(Remove(users, id)) == IdSet(users) - {id}
  {
    var r := Remove(users, id);
    forall x | x in IdSet(users) - {id} ensures x in IdSet(r) {
      var m :| m in users && m.id == x;
      assert m in r;
    }
  }

  lemma UniqueTail(users: seq<Member>)
    requires UniqueIds(users) && users != []
    ensures UniqueIds(users[1..]) && users[0].id !in IdSet(users[1..])
  {
    var rest := users[1..];
    forall i, j | 0 <= i < j < |rest| ensures rest[i].id != rest[j].id {
      assert rest[i] == users[i + 1] && rest[j] == users[j + 1];
    }
    forall m | m in rest ensures m.id != users[0].id {
      var k :| 0 <= k < |rest| && rest[k] == m;
      assert users[k + 1] == m;
    }
  }

  lemma UniqueCons(m: Member, rest: seq<Member>)
    requires UniqueIds(rest) && m.id !in IdSet(rest)
    ensures UniqueIds([m] + rest)
  {
    var r := [m] + rest;
    forall i, j | 0 <= i < j < |r| ensures r[i].id != r[j].id {
      assert r[j] == rest[j - 1];
      if i > 0 {
        assert r[i] == rest[i - 1];
      } else {
        assert r[j] in rest;
      }
    }
  }

  /** Deleting a key keeps the other keys distinct. */
  lemma {:induction false} RemoveKeepsUnique(users: seq<Member>, id: SocketId)
    requires UniqueIds(users)
    ensures UniqueIds(Remove(users, id))
  {
    if users != [] {
      UniqueTail(users);
      RemoveKeepsUnique(users[1..], id);
      if users[0].id != id {
        RemoveIds(users[1..], id);
        UniqueCons(users[0], Remove(users[1..], id));
      }
    }
  }

  /** Deleting a key that is there drops exactly one entry. */
  lemma {:induction false} RemoveShrinks(users: seq<Member>, id: SocketId)
    requires UniqueIds(users) && id in IdSet(users)
    ensures |Remove(users, id)| == |users| - 1
  {
    UniqueTail(users);
    if users[0].id != id {
      var m :| m in users && m.id == id;
      assert m in users[1..] by {
        var k :| 0 <= k < |users| && users[k] == m;
        assert k > 0 && users[1..][k - 1] == m;
      }
      RemoveShrinks(users[1..], id);
    }
  }

  /** Deleting a key from a concatenation deletes it from each part: the rest keep their order. */
  lemma {:induction false} RemoveAppend(a: seq<Member>, b: seq<Member>, id: SocketId)
    ensures Remove(a + b, id) == Remove(a, id) + Remove(b, id)
  {
    if a == [] {
      assert a + b == b;
    } else {
      assert (a + b)[0] == a[0] && (a + b)[1..] == a[1..] + b;
      RemoveAppend(a[1..], b, id);
      if a[0].id == id {
        assert Remove(a + b, id) == Remove(a[1..] + b, id);
      } else {
        assert Remove(a + b, id) == [a[0]] + Remove(a[1..] + b, id);
        assert [a[0]] + (Remove(a[1..], id) + Remove(b, id)) == [a[0]] + Remove(a[1..], id) + Remove(b, id);
      }
    }
  }

  /**
   * `users.set(m.id, m)`: a new key goes to the end (`PutAppends`), an existing key keeps
   * its place and gets the new value (`PutReplaces`).
   */
  function Put(users: seq<Member>, m: Member): (r: seq<Member>)
    ensures m in r
    ensures IdSet(r) == IdSet(users) + {m.id}
  {
    if users == [] then [m]
    else if users[0].id == m.id then
      assert users == [users[0]] + users[1..];
      IdSetAppend([users[0]], users[1..]);
      IdSetAppend([m], users[1..]);
      [m] + users[1..]
    else
      var rest := Put(users[1..], m);
      assert users == [users[0]] + users[1..];
      IdSetAppend([users[0]], users[1..]);
      IdSetAppend([users[0]], rest);
      [users[0]] + rest
  }

  lemma {:induction false} PutAppends(users: seq<Member>, m: Member)
    requires m.id !in IdSet(users)
    ensures Put(users, m) == users + [m]
  {
    if users != [] {
      assert users[0] in users;
      assert IdSet(users[1..]) <= IdSet(users) by {
        forall x | x in users[1..] ensures x in users { }
      }
      PutAppends(users[1..], m);
      assert users == [users[0]] + users[1..];
    }
  }

  lemma {:induction false} PutReplaces(users: seq<Member>, m: Member)
    requires UniqueIds(users) && m.id in IdSet(users)
    ensures var r := Put(users, m);
      |r| == |users| &&
      forall i :: 0 <= i < |users| ==> r[i] == if users[i].id == m.id then m else users[i]
  {
    var r := Put(users, m);
    if users[0].id == m.id {
      forall i | 1 <= i < |users| ensures users[i].id != m.id { }
    } else {
      assert users[0] in users;
      assert exists x :: x in users[1..] && x.id == m.id by {
        var x :| x in users && x.id == m.id;
        var k :| 0 <= k < |users| && users[k] == x;
        assert users[1..][k - 1] == x;
      }
      assert UniqueIds(users[1..]) by {
        forall i, j | 0 <= i < j < |users[1..]| ensures users[1..][i].id != users[1..][j].id {
          assert users[1..][i] == users[i + 1] && users[1..][j] == users[j + 1];
        }
      }
      PutReplaces(users[1..], m);
      var rest := Put(users[1..], m);
      assert r == [users[0]] + rest;
      forall i | 0 <= i < |users| ensures r[i] == if users[i].id == m.id then m else users[i] {
        if i > 0 {
          assert r[i] == rest[i - 1] && users[i] == users[1..][i - 1];
        }
      }
    }
  }

  /** Adding a member under a new key keeps the keys distinct. */
  lemma AppendFreshKeepsUnique(users: seq<Member>, m: Member)
    requires UniqueIds(users) && m.id !in IdSet(users)
    ensures UniqueIds(users + [m])
  {
    var r := users + [m];
    forall i, j | 0 <= i < j < |r| ensures r[i].id != r[j].id {
      if j == |users| {
        assert r[i] in users;
      } else {
        assert r[i] == users[i] && r[j] == users[j];
      }
    }
  }

  lemma IdSetAppend(a: seq<Member>, b: seq<Member>)
    ensures IdSet(a + b) == IdSet(a) + IdSet(b)
  {
    assert forall m :: m in a + b <==> m in a || m in b;
  }

  /** `users.get(id)`. */
  function Find(users: seq<Member>, id: SocketId): (r: Member)
    requires id in IdSet(users)
    ensures r in users && r.id == id
  {
    if users[0].id == id then users[0] else Find(users[1..], id)
  }

  /**
   * `user.location = location; user.lastSeen = now` on the stored value for `id`.
   */
  function Relocate(users: seq<Member>, id: SocketId, location: Location, now: int): (r: seq<Member>)
  {
    seq(|users|, i requires 0 <= i < |users| =>
      if users[i].id == id then users[i].(location := Some(location), lastSeen := now) else users[i])
  }

  /** The transport's room `c`: every socket whose index entry names `c`. */
  function Channel(index: map<SocketId, Binding>, c: Code): set<SocketId>
  {
    set s | s in index && index[s].roomCode == c
  }

  // ---------------------------------------------------------------------------------------
  // Invariants

  /** Each room is stored under its own code and has distinct user keys. */
  ghost predicate WellFormed(st: State)
  {
    forall c :: c in st.rooms ==> st.rooms[c].code == c && UniqueIds(st.rooms[c].users)
  }

  /** Every member of room `c` is indexed back to `c` under the name it joined with. */
  ghost predicate Indexed(st: State)
  {
    forall c, m :: c in st.rooms && m in st.rooms[c].users ==>
      m.id in st.userSockets && st.userSockets[m.id] == Binding(c, m.name)
  }

  /** The invariant every handler keeps. */
  ghost predicate Valid(st: State)
  {
    WellFormed(st) && Indexed(st)
  }

  /**
   * The converse of `Indexed`: every index entry names a room that lists the socket. Join,
   * location updates and disconnects keep it; a create-room that overwrites an occupied
   * room breaks it (`OverwriteStrandsMembers`).
   */
  ghost predicate Synced(st: State)
  {
    forall s :: s in st.userSockets ==>
      st.userSockets[s].roomCode in st.rooms &&
      s in IdSet(st.rooms[st.userSockets[s].roomCode].users)
  }

  // ---------------------------------------------------------------------------------------
  // Handlers

  /**
   * `POST /api/create-room` with `code` as the generated code: stores a fresh empty room
   * under it, replacing any room already stored there.
   */
  function CreateRoom(st: State, code: Code, now: int): State
  {
    st.(rooms := st.rooms[code := Room(code, [], now)])
  }

  /** `GET /api/room/:code`. */
  function QueryRoom(st: State, code: string): RoomInfo
  {
    var key := ToUpper(code);
    if key in st.rooms then Exists(|st.rooms[key].users|) else Missing
  }

  /**
   * The first half of `join-room`: if the socket is indexed to a room that still exists, it
   * is deleted from that room's users and the room's other sockets are told it left.
   */
  function LeavePrevious(st: State, s: SocketId): (r: Step)
    ensures r.next.rooms.Keys == st.rooms.Keys && r.next.userSockets == st.userSockets
  {
    if s in st.userSockets && st.userSockets[s].roomCode in st.rooms then
      var previous := st.userSockets[s];
      var prevRoom := st.rooms[previous.roomCode];
      Step(st.(rooms := st.rooms[previous.roomCode := prevRoom.(users := Remove(prevRoom.users, s))]),
           [Delivery(UserLeft(s, previous.userName), Channel(st.userSockets, previous.roomCode) - {s})])
    else
      Step(st, [])
  }

  /** The `join-room` handler of socket `s`. */
  function Join(st: State, s: SocketId, roomCode: string, userName: string, now: int): Step
  {
    var code := ToUpper(roomCode);
    if code !in st.rooms then
      Step(st, [Delivery(Error(RoomNotFound), {s})])
    else
      var left := LeavePrevious(st, s);
      // re-read: when the previous room is this room, the removal above is visible here
      var room := left.next.rooms[code];
      var users := Put(room.users, Member(s, userName, None, now));
      var index := st.userSockets[s := Binding(code, userName)];
      Step(State(left.next.rooms[code := room.(users := users)], index),
           left.sent + [Delivery(RoomJoined(code, users), {s}),
                        Delivery(UserJoined(s, userName), Channel(index, code) - {s}),
                        Delivery(UserCountUpdated(|users|), Channel(index, code))])
  }

  /** The `location-update` handler of socket `s`. */
  function LocationUpdate(st: State, s: SocketId, roomCode: string, location: Location, now: int): Step
  {
    var code := ToUpper(roomCode);
    if code in st.rooms && s in IdSet(st.rooms[code].users) then
      var room := st.rooms[code];
      var user := Find(room.users, s);
      Step(st.(rooms := st.rooms[code := room.(users := Relocate(room.users, s, location, now))]),
           [Delivery(UserLocationUpdated(s, user.name, location), Channel(st.userSockets, code) - {s})])
    else
      Step(st, [])
  }

  /**
   * The `disconnect` handler of socket `s`. By the time it runs the transport has already
   * taken `s` out of every room, so both emits reach the room's other sockets only.
   */
  function Disconnect(st: State, s: SocketId): Step
  {
    if s !in st.userSockets then
      Step(st, [])
    else
      var b := st.userSockets[s];
      var index := st.userSockets - {s};
      if b.roomCode !in st.rooms then
        Step(State(st.rooms, index), [])
      else
        var room := st.rooms[b.roomCode];
        var users := Remove(room.users, s);
        var audience := Channel(index, b.roomCode);
        var rooms := if |users| == 0 then st.rooms - {b.roomCode}
                     else st.rooms[b.roomCode := room.(users := users)];
        Step(State(rooms, index),
             [Delivery(UserLeft(s, b.userName), audience),
              Delivery(UserCountUpdated(|users|), audience)])
  }

  // ---------------------------------------------------------------------------------------
  // Sequences of requests

  /** One inbound request: an HTTP create-room or a socket event of socket `s`. */
  datatype Request =
    | CreateRoomRequest(code: Code, now: int)
    | JoinRequest(s: SocketId, roomCode: string, userName: string, now: int)
    | LocationRequest(s: SocketId, roomCode: string, location: Location, now: int)
    | DisconnectRequest(s: SocketId)

  /** Runs the handler a request is routed to. */
  function Handle(st: State, req: Request): Step
  {
    match req
    case CreateRoomRequest(code, now) => Step(CreateRoom(st, code, now), [])
    case JoinRequest(s, roomCode, userName, now) => Join(st, s, roomCode, userName, now)
    case LocationRequest(s, roomCode, location, now) => LocationUpdate(st, s, roomCode, location, now)
    case DisconnectRequest(s) => Disconnect(st, s)
  }

  /** Runs requests one after another, each to completion, collecting every emit in order. */
  function Run(st: State, reqs: seq<Request>): Step
    decreases |reqs|
  {
    if reqs == [] then Step(st, [])
    else
      var first := Handle(st, reqs[0]);
      var rest := Run(first.next, reqs[1..]);
      Step(rest.next, first.sent + rest.sent)
  }
}
