/**
 * How a client's view follows its room on the server. The events the server addresses to
 * socket `t` are fed, in order, to the client's updaters; the client's user list then keeps
 * the room's users in the same order with the same ids and names, and the same locations for
 * every user but `t` itself (the server never echoes a socket's own location back to it). The
 * member count follows too, except when another member leaves the room by joining a
 * different one: that path sends `user-left` to the old room but no new count.
 */
module ClientSync {
  import opened Common
  import opened Text
  import opened Registry
  import opened RegistryLemmas
  import App

  /** A member as the client receives it inside `room-joined`. */
  function ToUser(m: Member): App.User
  {
    App.User(m.id, m.name, m.location, m.lastSeen)
  }

  /**
   * The `users` payload of `room-joined` as the client stores it: it agrees with the room's
   * members in order, ids, names and locations.
   */
  function ToUsers(members: seq<Member>): (r: seq<App.User>)
    ensures forall t :: Agree(r, members, t)
  {
    seq(|members|, i requires 0 <= i < |members| => ToUser(members[i]))
  }

  /** The client's handler for one server event; `now` is the client's clock. */
  function Receive(cs: App.AppState, e: Event, now: int): App.AppState
  {
    match e
    case Error(_) => cs
    case RoomJoined(code, users) => App.OnRoomJoined(cs, code, ToUsers(users))
    case UserJoined(id, name) => App.OnUserJoined(cs, id, name, now)
    case UserLeft(id, _) => App.OnUserLeft(cs, id)
    case UserLocationUpdated(id, _, location) => App.OnUserLocationUpdated(cs, id, location, now)
    case UserCountUpdated(count) => App.OnUserCountUpdated(cs, count)
  }

  /** The events among `sent` that reach socket `t`, in the order they were sent. */
  function Inbox(sent: seq<Delivery>, t: SocketId): seq<Event>
  {
    if sent == [] then []
    else (if t in sent[0].audience then [sent[0].event] else []) + Inbox(sent[1..], t)
  }

  lemma {:induction false} InboxAppend(a: seq<Delivery>, b: seq<Delivery>, t: SocketId)
    ensures Inbox(a + b, t) == Inbox(a, t) + Inbox(b, t)
  {
    if a == [] {
      assert a + b == b;
    } else {
      var head := if t in a[0].audience then [a[0].event] else [];
      assert (a + b)[0] == a[0] && (a + b)[1..] == a[1..] + b;
      assert Inbox(a + b, t) == head + Inbox(a[1..] + b, t);
      InboxAppend(a[1..], b, t);
      assert head + (Inbox(a[1..], t) + Inbox(b, t)) == head + Inbox(a[1..], t) + Inbox(b, t);
    }
  }

  /** Handles events one after another. */
  function ReceiveAll(cs: App.AppState, events: seq<Event>, now: int): App.AppState
    decreases |events|
  {
    if events == [] then cs else ReceiveAll(Receive(cs, events[0], now), events[1..], now)
  }

  lemma {:induction false} ReceiveAllAppend(cs: App.AppState, a: seq<Event>, b: seq<Event>, now: int)
    ensures ReceiveAll(cs, a + b, now) == ReceiveAll(ReceiveAll(cs, a, now), b, now)
    decreases |a|
  {
    if a == [] {
      assert a + b == b;
    } else {
      assert (a + b)[1..] == a[1..] + b;
      ReceiveAllAppend(Receive(cs, a[0], now), a[1..], b, now);
    }
  }

  // ---------------------------------------------------------------------------------------
  // Agreement between the client's list and the room's users

  /**
   * Same length, and position by position the same id and name, and the same location
   * except for `t`'s own entry.
   */
  ghost predicate Agree(users: seq<App.User>, members: seq<Member>, t: SocketId)
  {
    |users| == |members| &&
    forall i :: 0 <= i < |users| ==>
      users[i].id == members[i].id && users[i].name == members[i].name &&
      (members[i].id != t ==> users[i].location == members[i].location)
  }

  /** Client `cs` of socket `t` lists the users of the room `t` is indexed to and belongs to. */
  ghost predicate RosterAgrees(cs: App.AppState, st: State, t: SocketId)
  {
    t in st.userSockets && st.userSockets[t].roomCode in st.rooms &&
    t in IdSet(st.rooms[st.userSockets[t].roomCode].users) &&
    cs.roomCode == Some(st.userSockets[t].roomCode) &&
    Agree(cs.users, st.rooms[st.userSockets[t].roomCode].users, t)
  }

  /** Client `cs` of socket `t` shows the size of the room `t` is indexed to. */
  ghost predicate CountAgrees(cs: App.AppState, st: State, t: SocketId)
    requires RosterAgrees(cs, st, t)
  {
    cs.userCount == |st.rooms[st.userSockets[t].roomCode].users|
  }

  lemma AgreeTail(users: seq<App.User>, members: seq<Member>, t: SocketId)
    requires Agree(users, members, t) && users != []
    ensures Agree(users[1..], members[1..], t)
  {
    var u, m := users[1..], members[1..];
    forall i | 0 <= i < |u|
      ensures u[i].id == m[i].id && u[i].name == m[i].name && (m[i].id != t ==> u[i].location == m[i].location)
    {
      assert u[i] == users[i + 1] && m[i] == members[i + 1];
    }
  }

  lemma AgreeCons(u: App.User, users: seq<App.User>, m: Member, members: seq<Member>, t: SocketId)
    requires Agree(users, members, t)
    requires u.id == m.id && u.name == m.name && (m.id != t ==> u.location == m.location)
    ensures Agree([u] + users, [m] + members, t)
  {
    var a, b := [u] + users, [m] + members;
    forall i | 0 <= i < |a|
      ensures a[i].id == b[i].id && a[i].name == b[i].name && (b[i].id != t ==> a[i].location == b[i].location)
    {
      if i > 0 {
        assert a[i] == users[i - 1] && b[i] == members[i - 1];
      }
    }
  }

  /** Dropping one id from both lists keeps them in agreement. */
  lemma {:induction false} AgreeWithout(users: seq<App.User>, members: seq<Member>, t: SocketId, s: SocketId)
    requires Agree(users, members, t)
    ensures Agree(App.Without(users, s), Remove(members, s), t)
  {
    if users != [] {
      AgreeTail(users, members, t);
      AgreeWithout(users[1..], members[1..], t, s);
      if users[0].id != s {
        AgreeCons(users[0], App.Without(users[1..], s), members[0], Remove(members[1..], s), t);
      }
    }
  }

  lemma AgreeAppend(users: seq<App.User>, members: seq<Member>, t: SocketId, u: App.User, m: Member)
    requires Agree(users, members, t)
    requires u.id == m.id && u.name == m.name && u.location == m.location
    ensures Agree(users + [u], members + [m], t)
  {
  }

  lemma AgreeRelocate(users: seq<App.User>, members: seq<Member>, t: SocketId, s: SocketId,
                      location: Location, clientNow: int, now: int)
    requires Agree(users, members, t)
    ensures Agree(App.Relocated(users, s, location, clientNow), Relocate(members, s, location, now), t)
  {
  }

  lemma AgreeOwnLocation(users: seq<App.User>, members: seq<Member>, t: SocketId, location: Location, now: int)
    requires Agree(users, members, t)
    ensures Agree(users, Relocate(members, t, location, now), t)
  {
  }

  // ---------------------------------------------------------------------------------------
  // One request at a time

  /** The part of one emit that reaches `t`. */
  function Reach(d: Delivery, t: SocketId): seq<Event>
  {
    if t in d.audience then [d.event] else []
  }

  lemma InboxThree(d1: Delivery, d2: Delivery, d3: Delivery, t: SocketId)
    ensures Inbox([d1, d2, d3], t) == Reach(d1, t) + Reach(d2, t) + Reach(d3, t)
  {
    assert [d1, d2, d3][1..] == [d2, d3] && [d2, d3][1..] == [d3] && [d3][1..] == [];
    assert Inbox([d3], t) == Reach(d3, t);
    assert Inbox([d2, d3], t) == Reach(d2, t) + Reach(d3, t);
  }

  lemma InboxAtMostOne(sent: seq<Delivery>, t: SocketId)
    requires |sent| <= 1
    ensures Inbox(sent, t) == if sent == [] then [] else Reach(sent[0], t)
  {
    if sent != [] {
      assert sent[1..] == [];
    }
  }

  /** What leaving the previous room sends to `t`. */
  lemma LeaveInbox(st: State, s: SocketId, t: SocketId)
    ensures var leaves := s in st.userSockets && st.userSockets[s].roomCode in st.rooms;
      Inbox(LeavePrevious(st, s).sent, t) ==
        if leaves && t in Channel(st.userSockets, st.userSockets[s].roomCode) - {s}
        then [UserLeft(s, st.userSockets[s].userName)] else []
  {
    InboxAtMostOne(LeavePrevious(st, s).sent, t);
  }

  /** The events a join sends to socket `t`, in order. */
  lemma JoinInbox(st: State, s: SocketId, roomCode: string, userName: string, now: int, t: SocketId)
    requires ToUpper(roomCode) in st.rooms
    ensures var code := ToUpper(roomCode);
      var r := Join(st, s, roomCode, userName, now);
      var users := r.next.rooms[code].users;
      var channel := Channel(r.next.userSockets, code);
      var leaves := s in st.userSockets && st.userSockets[s].roomCode in st.rooms;
      Inbox(r.sent, t) ==
        (if leaves && t in Channel(st.userSockets, st.userSockets[s].roomCode) - {s}
         then [UserLeft(s, st.userSockets[s].userName)] else []) +
        (if t == s then [RoomJoined(code, users)] else []) +
        (if t in channel - {s} then [UserJoined(s, userName)] else []) +
        (if t in channel then [UserCountUpdated(|users|)] else [])
  {
    var code := ToUpper(roomCode);
    var r := Join(st, s, roomCode, userName, now);
    var users := r.next.rooms[code].users;
    var channel := Channel(r.next.userSockets, code);
    var d1 := Delivery(RoomJoined(code, users), {s});
    var d2 := Delivery(UserJoined(s, userName), channel - {s});
    var d3 := Delivery(UserCountUpdated(|users|), channel);
    JoinSends(st, s, roomCode, userName, now);
    InboxAppend(LeavePrevious(st, s).sent, [d1, d2, d3], t);
    LeaveInbox(st, s, t);
    InboxThree(d1, d2, d3, t);
  }

  /** A socket's own successful join reaches it as the room's snapshot followed by the count. */
  lemma OwnJoinInbox(st: State, t: SocketId, roomCode: string, userName: string, now: int)
    requires Valid(st) && ToUpper(roomCode) in st.rooms
    ensures var r := Join(st, t, roomCode, userName, now);
      var users := r.next.rooms[ToUpper(roomCode)].users;
      Inbox(r.sent, t) == [RoomJoined(ToUpper(roomCode), users), UserCountUpdated(|users|)]
  {
    var code := ToUpper(roomCode);
    var r := Join(st, t, roomCode, userName, now);
    var users := r.next.rooms[code].users;
    var channel := Channel(r.next.userSockets, code);
    var d1 := Delivery(RoomJoined(code, users), {t});
    var d2 := Delivery(UserJoined(t, userName), channel - {t});
    var d3 := Delivery(UserCountUpdated(|users|), channel);
    JoinSends(st, t, roomCode, userName, now);
    InboxAppend(LeavePrevious(st, t).sent, [d1, d2, d3], t);
    LeaveInbox(st, t, t);
    InboxThree(d1, d2, d3, t);
    assert t in channel;
  }

  /** The snapshot and the count, received in that order, give a view of exactly that room. */
  lemma SnapshotView(cs: App.AppState, code: Code, users: seq<Member>, t: SocketId, clientNow: int)
    ensures var view := ReceiveAll(cs, [RoomJoined(code, users), UserCountUpdated(|users|)], clientNow);
      view.roomCode == Some(code) && Agree(view.users, users, t) && view.userCount == |users|
  {
    ReceiveTwo(cs, RoomJoined(code, users), UserCountUpdated(|users|), clientNow);
  }

  /** A socket's own successful join sets up its view: the snapshot and then the count. */
  lemma OwnJoinSetsView(st: State, cs: App.AppState, t: SocketId, roomCode: string, userName: string,
                        now: int, clientNow: int)
    requires Valid(st) && ToUpper(roomCode) in st.rooms
    ensures var r := Join(st, t, roomCode, userName, now);
      var view := ReceiveAll(cs, Inbox(r.sent, t), clientNow);
      RosterAgrees(view, r.next, t) && CountAgrees(view, r.next, t)
  {
    var code := ToUpper(roomCode);
    var r := Join(st, t, roomCode, userName, now);
    JoinAppends(st, t, roomCode, userName, now);
    OwnJoinInbox(st, t, roomCode, userName, now);
    SnapshotView(cs, code, r.next.rooms[code].users, t, clientNow);
    IdSetAppend(Remove(st.rooms[code].users, t), [Member(t, userName, None, now)]);
  }

  /**
   * A client that has just started asks to join an existing room: once the server has run
   * the join and the client has handled what it was sent, the client shows the map, keeps
   * the name it joined with, and is in step with the room in list and count.
   */
  lemma StartAndJoin(st: State, t: SocketId, roomCode: string, userName: string, now: int, clientNow: int)
    requires Valid(st) && ToUpper(roomCode) in st.rooms
    ensures var asked := App.HandleJoinRoom(App.Initial, true, roomCode, userName);
      var r := Join(st, t, asked.sent.value.roomCode, asked.sent.value.userName, now);
      var view := ReceiveAll(asked.state, Inbox(r.sent, t), clientNow);
      && view.currentScreen == App.MapScreen && view.userName == Some(userName)
      && RosterAgrees(view, r.next, t) && CountAgrees(view, r.next, t)
  {
    var asked := App.HandleJoinRoom(App.Initial, true, roomCode, userName);
    var r := Join(st, t, roomCode, userName, now);
    var users := r.next.rooms[ToUpper(roomCode)].users;
    OwnJoinSetsView(st, asked.state, t, roomCode, userName, now, clientNow);
    OwnJoinInbox(st, t, roomCode, userName, now);
    ReceiveTwo(asked.state, RoomJoined(ToUpper(roomCode), users), UserCountUpdated(|users|), clientNow);
  }

  lemma ReceiveOne(cs: App.AppState, e: Event, now: int)
    ensures ReceiveAll(cs, [e], now) == Receive(cs, e, now)
  {
    assert [e][1..] == [];
  }

  lemma ReceiveTwo(cs: App.AppState, e: Event, f: Event, now: int)
    ensures ReceiveAll(cs, [e, f], now) == Receive(Receive(cs, e, now), f, now)
  {
    assert [e, f][1..] == [f];
    ReceiveOne(Receive(cs, e, now), f, now);
  }

  /**
   * Another socket `s` leaves the room of `t` by joining a different, existing room: the
   * case in which `t` hears `user-left` but no new count.
   */
  ghost predicate SwitchesAway(st: State, s: SocketId, roomCode: string, t: SocketId)
  {
    s != t && s in st.userSockets && t in st.userSockets &&
    st.userSockets[s].roomCode == st.userSockets[t].roomCode &&
    st.userSockets[s].roomCode in st.rooms &&
    ToUpper(roomCode) in st.rooms && ToUpper(roomCode) != st.userSockets[t].roomCode
  }

  /**
   * Membership of `Registry.Channel` at one socket. The proofs below call it for the socket
   * they follow, so that the solver meets the set comprehension only at that socket.
   */
  lemma InChannel(index: map<SocketId, Binding>, c: Code, t: SocketId)
    ensures t in Channel(index, c) <==> t in index && index[t].roomCode == c
  {
  }

  /** What another socket's join sends to `t`: the leave it heard, then the arrival. */
  function OtherJoinEvents(s: SocketId, heardLeave: bool, leftName: string, sameRoom: bool,
                           userName: string, count: nat): seq<Event>
  {
    (if heardLeave then [UserLeft(s, leftName)] else []) +
    (if sameRoom then [UserJoined(s, userName), UserCountUpdated(count)] else [])
  }

  /** Picks the parts of a four-part inbox that reach a socket other than the sender. */
  lemma PickParts(inbox: seq<Event>, b1: bool, b2: bool, b3: bool, b4: bool,
                  e1: Event, e2: Event, e3: Event, e4: Event)
    requires inbox == (if b1 then [e1] else []) + (if b2 then [e2] else []) +
                      (if b3 then [e3] else []) + (if b4 then [e4] else [])
    requires !b2 && b3 == b4
    ensures inbox == (if b1 then [e1] else []) + (if b3 then [e3, e4] else [])
  {
  }

  /** What another socket's successful join sends to `t`. */
  lemma JoinInboxOther(st: State, s: SocketId, roomCode: string, userName: string, now: int, t: SocketId)
    requires Valid(st) && ToUpper(roomCode) in st.rooms && t in st.userSockets && s != t
    ensures var code := ToUpper(roomCode);
      var r := Join(st, s, roomCode, userName, now);
      var c := st.userSockets[t].roomCode;
      var leaves := s in st.userSockets && st.userSockets[s].roomCode in st.rooms && st.userSockets[s].roomCode == c;
      var leftName := if s in st.userSockets then st.userSockets[s].userName else "";
      Inbox(r.sent, t) == OtherJoinEvents(s, leaves, leftName, code == c, userName, |r.next.rooms[code].users|)
  {
    var code := ToUpper(roomCode);
    var r := Join(st, s, roomCode, userName, now);
    var next := r.next;
    var c := st.userSockets[t].roomCode;
    JoinAppends(st, s, roomCode, userName, now);
    JoinInbox(st, s, roomCode, userName, now, t);
    var users := next.rooms[code].users;
    var channel := Channel(next.userSockets, code);
    var leaves0 := s in st.userSockets && st.userSockets[s].roomCode in st.rooms;
    var b1 := leaves0 && t in Channel(st.userSockets, st.userSockets[s].roomCode) - {s};
    assert b1 == (leaves0 && st.userSockets[s].roomCode == c) by {
      if s in st.userSockets {
        InChannel(st.userSockets, st.userSockets[s].roomCode, t);
      }
    }
    assert (t in channel - {s}) == (t in channel) == (code == c) by {
      assert next.userSockets[t] == st.userSockets[t];
      InChannel(next.userSockets, code, t);
    }
    PickParts(Inbox(r.sent, t), b1, t == s, t in channel - {s}, t in channel,
              UserLeft(s, if s in st.userSockets then st.userSockets[s].userName else ""),
              RoomJoined(code, users), UserJoined(s, userName), UserCountUpdated(|users|));
  }

  lemma LeaveView(cs: App.AppState, U: seq<Member>, t: SocketId, s: SocketId, leftName: string, clientNow: int)
    requires Agree(cs.users, U, t)
    ensures var view := ReceiveAll(cs, [UserLeft(s, leftName)], clientNow);
      view == App.OnUserLeft(cs, s) && Agree(view.users, Remove(U, s), t)
  {
    ReceiveOne(cs, UserLeft(s, leftName), clientNow);
    AgreeWithout(cs.users, U, t, s);
  }

  lemma ArrivalView(cs: App.AppState, V: seq<Member>, t: SocketId, s: SocketId, userName: string,
                    now: int, clientNow: int)
    requires Agree(cs.users, V, t)
    ensures var after := V + [Member(s, userName, None, now)];
      var view := ReceiveAll(cs, [UserJoined(s, userName), UserCountUpdated(|after|)], clientNow);
      view.roomCode == cs.roomCode && Agree(view.users, after, t) && view.userCount == |after|
  {
    var after := V + [Member(s, userName, None, now)];
    ReceiveTwo(cs, UserJoined(s, userName), UserCountUpdated(|after|), clientNow);
    AgreeAppend(cs.users, V, t, App.User(s, userName, None, clientNow), Member(s, userName, None, now));
  }

  /**
   * The client-side half of another socket's join, stated on lists alone: `t`'s list first
   * loses `s` if `t` heard it leave, then gains it at the end if `s` joined `t`'s room.
   */
  lemma OtherJoinView(cs: App.AppState, U: seq<Member>, t: SocketId, s: SocketId, heardLeave: bool,
                      sameRoom: bool, leftName: string, userName: string, now: int, clientNow: int,
                      after: seq<Member>)
    requires Agree(cs.users, U, t)
    requires !heardLeave ==> Remove(U, s) == U
    requires after == if sameRoom then Remove(U, s) + [Member(s, userName, None, now)] else Remove(U, s)
    ensures var view := ReceiveAll(cs, OtherJoinEvents(s, heardLeave, leftName, sameRoom, userName, |after|), clientNow);
      && view.roomCode == cs.roomCode
      && Agree(view.users, after, t)
      && view.userCount == if sameRoom then |after| else cs.userCount
  {
    var leftPart := if heardLeave then [UserLeft(s, leftName)] else [];
    var joinPart := if sameRoom then [UserJoined(s, userName), UserCountUpdated(|after|)] else [];
    ReceiveAllAppend(cs, leftPart, joinPart, clientNow);
    var mid := ReceiveAll(cs, leftPart, clientNow);
    if heardLeave {
      LeaveView(cs, U, t, s, leftName, clientNow);
    }
    assert mid.roomCode == cs.roomCode && mid.userCount == cs.userCount && Agree(mid.users, Remove(U, s), t);
    if sameRoom {
      ArrivalView(mid, Remove(U, s), t, s, userName, now, clientNow);
    }
  }

  /**
   * Another socket's successful join keeps `t`'s list in step with its room, and its count
   * too unless the joiner has just left `t`'s room for another one.
   */
  lemma JoinOtherTracks(st: State, cs: App.AppState, t: SocketId, s: SocketId, roomCode: string,
                        userName: string, now: int, clientNow: int)
    requires Valid(st) && ToUpper(roomCode) in st.rooms && RosterAgrees(cs, st, t) && s != t
    ensures var r := Join(st, s, roomCode, userName, now);
      var view := ReceiveAll(cs, Inbox(r.sent, t), clientNow);
      && RosterAgrees(view, r.next, t)
      && (CountAgrees(cs, st, t) && !SwitchesAway(st, s, roomCode, t) ==> CountAgrees(view, r.next, t))
      && (SwitchesAway(st, s, roomCode, t) ==> view.userCount == cs.userCount)
  {
    var code := ToUpper(roomCode);
    var r := Join(st, s, roomCode, userName, now);
    var next := r.next;
    var c := st.userSockets[t].roomCode;
    var U := st.rooms[c].users;
    var leaves := s in st.userSockets && st.userSockets[s].roomCode in st.rooms && st.userSockets[s].roomCode == c;
    var leftName := if s in st.userSockets then st.userSockets[s].userName else "";
    JoinInboxOther(st, s, roomCode, userName, now, t);
    JoinAppends(st, s, roomCode, userName, now);
    JoinLeavesOtherRooms(st, s, roomCode, userName, now);
    if !leaves && s in IdSet(U) {
      MemberIsIndexed(st, c, s);
    }
    var after := next.rooms[c].users;
    assert after == if code == c then Remove(U, s) + [Member(s, userName, None, now)] else Remove(U, s);
    assert next.userSockets[t] == st.userSockets[t];
    OtherJoinView(cs, U, t, s, leaves, code == c, leftName, userName, now, clientNow, after);
    assert t in IdSet(after) by {
      if code == c {
        IdSetAppend(Remove(U, s), [Member(s, userName, None, now)]);
      }
    }
  }

  /**
   * The stale count: when another member of `t`'s room joins a different room, the room
   * shrinks by one but `t` still shows the old size.
   */
  lemma SwitchLeavesCountStale(st: State, cs: App.AppState, t: SocketId, s: SocketId, roomCode: string,
                               userName: string, now: int, clientNow: int)
    requires Valid(st) && Synced(st) && RosterAgrees(cs, st, t) && CountAgrees(cs, st, t)
    requires SwitchesAway(st, s, roomCode, t)
    ensures var r := Join(st, s, roomCode, userName, now);
      var view := ReceiveAll(cs, Inbox(r.sent, t), clientNow);
      && RosterAgrees(view, r.next, t)
      && view.userCount == |r.next.rooms[st.userSockets[t].roomCode].users| + 1
  {
    var c := st.userSockets[t].roomCode;
    JoinOtherTracks(st, cs, t, s, roomCode, userName, now, clientNow);
    JoinLeavesOtherRooms(st, s, roomCode, userName, now);
    assert s in IdSet(st.rooms[c].users);
    RemoveShrinks(st.rooms[c].users, s);
  }

  lemma RelocateKeepsIds(users: seq<Member>, id: SocketId, location: Location, now: int)
    ensures IdSet(Relocate(users, id, location, now)) == IdSet(users)
  {
    var after := Relocate(users, id, location, now);
    forall x | x in IdSet(users) ensures x in IdSet(after) {
      var i :| 0 <= i < |users| && users[i].id == x;
      assert after[i].id == x;
    }
    forall x | x in IdSet(after) ensures x in IdSet(users) {
      var i :| 0 <= i < |after| && after[i].id == x;
      assert users[i].id == x;
    }
  }

  /** What a location update sends to `t`: the new position when `t` shares the sender's room. */
  lemma LocationInbox(st: State, s: SocketId, roomCode: string, location: Location, now: int, t: SocketId)
    requires Valid(st) && t in st.userSockets
    ensures var code := ToUpper(roomCode);
      var r := LocationUpdate(st, s, roomCode, location, now);
      var hears := code in st.rooms && s in IdSet(st.rooms[code].users) && t != s &&
                   st.userSockets[t].roomCode == code;
      Inbox(r.sent, t) ==
        if hears then [UserLocationUpdated(s, Find(st.rooms[code].users, s).name, location)] else []
  {
    var code := ToUpper(roomCode);
    var r := LocationUpdate(st, s, roomCode, location, now);
    if code in st.rooms && s in IdSet(st.rooms[code].users) {
      InboxAtMostOne(r.sent, t);
      InChannel(st.userSockets, code, t);
    }
  }

  /** What a location update leaves in `t`'s room. */
  lemma LocationRoom(st: State, s: SocketId, roomCode: string, location: Location, now: int, c: Code)
    requires c in st.rooms
    ensures var code := ToUpper(roomCode);
      var r := LocationUpdate(st, s, roomCode, location, now);
      var moved := code in st.rooms && s in IdSet(st.rooms[code].users) && c == code;
      && r.next.userSockets == st.userSockets
      && c in r.next.rooms
      && r.next.rooms[c].users == if moved then Relocate(st.rooms[c].users, s, location, now) else st.rooms[c].users
  {
  }

  /** The client-side half of a location update, stated on lists alone. */
  lemma LocationView(cs: App.AppState, U: seq<Member>, t: SocketId, s: SocketId, name: string,
                     location: Location, now: int, clientNow: int, hears: bool)
    requires Agree(cs.users, U, t) && (hears <==> s != t)
    ensures var view := ReceiveAll(cs, if hears then [UserLocationUpdated(s, name, location)] else [], clientNow);
      && view.roomCode == cs.roomCode && view.userCount == cs.userCount
      && Agree(view.users, Relocate(U, s, location, now), t)
  {
    if hears {
      ReceiveOne(cs, UserLocationUpdated(s, name, location), clientNow);
      AgreeRelocate(cs.users, U, t, s, location, clientNow, now);
    } else {
      AgreeOwnLocation(cs.users, U, t, location, now);
    }
  }

  /** Any socket's location update, `t`'s own included, keeps `t`'s list and count in step. */
  lemma LocationTracks(st: State, cs: App.AppState, t: SocketId, s: SocketId, roomCode: string,
                       location: Location, now: int, clientNow: int)
    requires Valid(st) && RosterAgrees(cs, st, t)
    ensures var r := LocationUpdate(st, s, roomCode, location, now);
      var view := ReceiveAll(cs, Inbox(r.sent, t), clientNow);
      && RosterAgrees(view, r.next, t)
      && (CountAgrees(cs, st, t) ==> CountAgrees(view, r.next, t))
  {
    var code := ToUpper(roomCode);
    var c := st.userSockets[t].roomCode;
    var U := st.rooms[c].users;
    LocationInbox(st, s, roomCode, location, now, t);
    LocationRoom(st, s, roomCode, location, now, c);
    if code in st.rooms && s in IdSet(st.rooms[code].users) && c == code {
      RelocateKeepsIds(U, s, location, now);
      LocationView(cs, U, t, s, Find(U, s).name, location, now, clientNow, t != s);
    }
  }


  lemma InboxPair(d1: Delivery, d2: Delivery, t: SocketId)
    requires d1.audience == d2.audience
    ensures Inbox([d1, d2], t) == if t in d1.audience then [d1.event, d2.event] else []
  {
    assert [d1, d2] == [d1] + [d2];
    InboxAppend([d1], [d2], t);
    InboxAtMostOne([d1], t);
    InboxAtMostOne([d2], t);
  }

  /** What another socket's disconnect sends to `t`: the leave and the new size, or nothing. */
  lemma DisconnectInboxOther(st: State, s: SocketId, t: SocketId)
    requires s != t && t in st.userSockets
    ensures var r := Disconnect(st, s);
      var c := st.userSockets[t].roomCode;
      var hears := s in st.userSockets && st.userSockets[s].roomCode == c && c in st.rooms;
      Inbox(r.sent, t) ==
        if hears then [UserLeft(s, st.userSockets[s].userName), UserCountUpdated(|Remove(st.rooms[c].users, s)|)]
        else []
  {
    var r := Disconnect(st, s);
    if s !in st.userSockets {
      assert Inbox(r.sent, t) == [];
    } else {
      var b := st.userSockets[s];
      DisconnectLeavesRoom(st, s);
      if b.roomCode !in st.rooms {
        assert Inbox(r.sent, t) == [];
      } else {
        assert r.next.userSockets == st.userSockets - {s};
        InChannel(r.next.userSockets, b.roomCode, t);
        InboxPair(r.sent[0], r.sent[1], t);
        assert r.sent == [r.sent[0], r.sent[1]];
      }
    }
  }

  lemma LeaveCountView(cs: App.AppState, U: seq<Member>, t: SocketId, s: SocketId, leftName: string, clientNow: int)
    requires Agree(cs.users, U, t)
    ensures var view := ReceiveAll(cs, [UserLeft(s, leftName), UserCountUpdated(|Remove(U, s)|)], clientNow);
      view.roomCode == cs.roomCode && Agree(view.users, Remove(U, s), t) && view.userCount == |Remove(U, s)|
  {
    var n := |Remove(U, s)|;
    ReceiveTwo(cs, UserLeft(s, leftName), UserCountUpdated(n), clientNow);
    var mid := App.OnUserLeft(cs, s);
    assert Receive(cs, UserLeft(s, leftName), clientNow) == mid;
    assert Receive(mid, UserCountUpdated(n), clientNow) == App.OnUserCountUpdated(mid, n);
    AgreeWithout(cs.users, U, t, s);
  }

  /** Another socket's disconnect keeps `t`'s list and count in step. */
  lemma DisconnectOtherTracks(st: State, cs: App.AppState, t: SocketId, s: SocketId, clientNow: int)
    requires Valid(st) && RosterAgrees(cs, st, t) && s != t
    ensures var r := Disconnect(st, s);
      var view := ReceiveAll(cs, Inbox(r.sent, t), clientNow);
      && RosterAgrees(view, r.next, t)
      && (CountAgrees(cs, st, t) ==> CountAgrees(view, r.next, t))
  {
    var r := Disconnect(st, s);
    var c := st.userSockets[t].roomCode;
    var U := st.rooms[c].users;
    DisconnectInboxOther(st, s, t);
    if s !in st.userSockets {
      DisconnectUnknownIsNoop(st, s);
    } else {
      DisconnectLeavesRoom(st, s);
      DisconnectForgets(st, s);
      assert r.next.userSockets[t] == st.userSockets[t];
      if st.userSockets[s].roomCode == c {
        assert t in IdSet(Remove(U, s));
        LeaveCountView(cs, U, t, s, st.userSockets[s].userName, clientNow);
      }
    }
  }

  /** Creating a room under any code but `t`'s keeps `t`'s view in step; `t` hears nothing. */
  lemma CreateOtherTracks(st: State, cs: App.AppState, t: SocketId, code: Code, now: int)
    requires RosterAgrees(cs, st, t) && code != st.userSockets[t].roomCode
    ensures RosterAgrees(cs, CreateRoom(st, code, now), t)
    ensures CountAgrees(cs, st, t) ==> CountAgrees(cs, CreateRoom(st, code, now), t)
  {
  }

  /**
   * Creating a room under the code of `t`'s room empties it without a word to `t`, whose
   * list no longer matches.
   */
  lemma OverwriteLeavesClientStale(st: State, cs: App.AppState, t: SocketId, now: int)
    requires RosterAgrees(cs, st, t)
    ensures !RosterAgrees(cs, CreateRoom(st, st.userSockets[t].roomCode, now), t)
    ensures Handle(st, CreateRoomRequest(st.userSockets[t].roomCode, now)).sent == []
  {
  }

  // ---------------------------------------------------------------------------------------
  // Any request, and runs of requests

  /**
   * The requests after which `t`'s list is still in step: all but `t`'s own disconnect and
   * a create-room that reuses the code of `t`'s room.
   */
  ghost predicate Allowed(st: State, req: Request, t: SocketId)
  {
    match req
    case CreateRoomRequest(code, _) => !(t in st.userSockets && code == st.userSockets[t].roomCode)
    case DisconnectRequest(s) => s != t
    case _ => true
  }

  /** The request is not another member of `t`'s room switching to a different room. */
  ghost predicate KeepsCount(st: State, req: Request, t: SocketId)
  {
    !(req.JoinRequest? && SwitchesAway(st, req.s, req.roomCode, t))
  }

  lemma OwnJoinTracks(st: State, cs: App.AppState, t: SocketId, roomCode: string, userName: string,
                      now: int, clientNow: int)
    requires Valid(st)
    requires ToUpper(roomCode) !in st.rooms ==> RosterAgrees(cs, st, t)
    ensures var r := Join(st, t, roomCode, userName, now);
      var view := ReceiveAll(cs, Inbox(r.sent, t), clientNow);
      && RosterAgrees(view, r.next, t)
      && (ToUpper(roomCode) in st.rooms || CountAgrees(cs, st, t) ==> CountAgrees(view, r.next, t))
      && (ToUpper(roomCode) !in st.rooms ==> view == cs && r.next == st)
  {
    if ToUpper(roomCode) in st.rooms {
      OwnJoinSetsView(st, cs, t, roomCode, userName, now, clientNow);
    } else {
      var r := Join(st, t, roomCode, userName, now);
      JoinMissingRoom(st, t, roomCode, userName, now);
      InboxAtMostOne(r.sent, t);
      ReceiveOne(cs, Error(RoomNotFound), clientNow);
    }
  }

  /** One request of any kind, as `t`'s client sees it. */
  lemma HandleTracks(st: State, cs: App.AppState, t: SocketId, req: Request, clientNow: int)
    requires Valid(st) && RosterAgrees(cs, st, t) && Allowed(st, req, t)
    ensures var r := Handle(st, req);
      var view := ReceiveAll(cs, Inbox(r.sent, t), clientNow);
      && RosterAgrees(view, r.next, t)
      && (CountAgrees(cs, st, t) && KeepsCount(st, req, t) ==> CountAgrees(view, r.next, t))
  {
    match req
    case CreateRoomRequest(code, now) =>
      CreateOtherTracks(st, cs, t, code, now);
      assert Inbox([], t) == [];
    case JoinRequest(s, roomCode, userName, now) =>
      if s == t {
        OwnJoinTracks(st, cs, t, roomCode, userName, now, clientNow);
      } else if ToUpper(roomCode) in st.rooms {
        JoinOtherTracks(st, cs, t, s, roomCode, userName, now, clientNow);
      } else {
        var r := Join(st, s, roomCode, userName, now);
        JoinMissingRoom(st, s, roomCode, userName, now);
        InboxAtMostOne(r.sent, t);
      }
    case LocationRequest(s, roomCode, location, now) =>
      LocationTracks(st, cs, t, s, roomCode, location, now, clientNow);
    case DisconnectRequest(s) =>
      DisconnectOtherTracks(st, cs, t, s, clientNow);
  }

  /**
   * Every request of the run is allowed for `t` in the state it meets, and, when `counted`,
   * none is a member of `t`'s room switching away.
   */
  ghost predicate Tracked(st: State, reqs: seq<Request>, t: SocketId, counted: bool)
    decreases |reqs|
  {
    reqs == [] ||
    (Allowed(st, reqs[0], t) && (counted ==> KeepsCount(st, reqs[0], t)) &&
     Tracked(Handle(st, reqs[0]).next, reqs[1..], t, counted))
  }

  /**
   * A client that starts in step with its room stays in step through any run of requests:
   * its list always, and its count as long as nobody switches away from its room.
   */
  lemma {:induction false} RunTracks(st: State, cs: App.AppState, t: SocketId, reqs: seq<Request>,
                                     counted: bool, clientNow: int)
    requires Valid(st) && RosterAgrees(cs, st, t) && (counted ==> CountAgrees(cs, st, t))
    requires Tracked(st, reqs, t, counted)
    ensures var r := Run(st, reqs);
      var view := ReceiveAll(cs, Inbox(r.sent, t), clientNow);
      && RosterAgrees(view, r.next, t)
      && (counted ==> CountAgrees(view, r.next, t))
    decreases |reqs|
  {
    if reqs != [] {
      var first := Handle(st, reqs[0]);
      var rest := Run(first.next, reqs[1..]);
      var mid := ReceiveAll(cs, Inbox(first.sent, t), clientNow);
      HandleTracks(st, cs, t, reqs[0], clientNow);
      HandleKeepsValid(st, reqs[0]);
      RunTracks(first.next, mid, t, reqs[1..], counted, clientNow);
      InboxAppend(first.sent, rest.sent, t);
      ReceiveAllAppend(cs, Inbox(first.sent, t), Inbox(rest.sent, t), clientNow);
    } else {
      assert Inbox([], t) == [];
    }
  }
}
