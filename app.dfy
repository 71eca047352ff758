/**
 * The client's view state (`AppState` in src/App.tsx) and the updaters its socket handlers
 * and callbacks pass to `setState`. Each updater builds a new state from the previous one and
 * never mutates it, so each is a function from state to state. The clock reading that
 * `new Date()` takes is a parameter.
 */
module App {
  import opened Common

  datatype Screen = Welcome | MapScreen

  /** A user as the client keeps it. */
  datatype User = User(id: string, name: string, location: Option<Location>, lastSeen: int)

  datatype AppState = AppState(
    currentScreen: Screen,
    roomCode: Option<string>,
    userName: Option<string>,
    users: seq<User>,
    userCount: int)

  /** What the client sends to the server. */
  datatype Outgoing =
    | JoinRoomMessage(roomCode: string, userName: string)
    | LocationUpdateMessage(roomCode: string, location: Location)

  /** The state the app starts in. */
  const Initial: AppState := AppState(Welcome, None, None, [], 0)

  datatype Field = ScreenField | UsersField | CountField

  /** `r` has the fields of `prev`, except possibly `changed`. */
  predicate KeepsAllBut(prev: AppState, r: AppState, changed: Field)
  {
    (changed != ScreenField ==> r.currentScreen == prev.currentScreen) &&
    r.roomCode == prev.roomCode && r.userName == prev.userName &&
    (changed != UsersField ==> r.users == prev.users) &&
    (changed != CountField ==> r.userCount == prev.userCount)
  }

  // ---------------------------------------------------------------------------------------
  // List operations the updaters use

  /** `users.filter(user => user.id !== id)`. */
  function Without(users: seq<User>, id: string): (r: seq<User>)
    ensures forall u :: u in r <==> u in users && u.id != id
    ensures |r| <= |users|
    ensures (forall u :: u in users ==> u.id != id) ==> r == users
  {
    if users == [] then []
    else if users[0].id == id then Without(users[1..], id)
    else [users[0]] + Without(users[1..], id)
  }

  /** Filtering a concatenation filters each part: the kept entries keep their order. */
  lemma {:induction false} WithoutAppend(a: seq<User>, b: seq<User>, id: string)
    ensures Without(a + b, id) == Without(a, id) + Without(b, id)
  {
    if a != [] {
      var head := if a[0].id == id then [] else [a[0]];
      assert (a + b)[0] == a[0] && (a + b)[1..] == a[1..] + b;
      assert Without(a + b, id) == head + Without(a[1..] + b, id);
      WithoutAppend(a[1..], b, id);
      assert head + (Without(a[1..], id) + Without(b, id)) == head + Without(a[1..], id) + Without(b, id);
    } else {
      assert a + b == b;
    }
  }

  /** Filtering the same id twice removes nothing more. */
  lemma WithoutIdempotent(users: seq<User>, id: string)
    ensures Without(Without(users, id), id) == Without(users, id)
  {
  }

  /**
   * `users.map(user => user.id === id ? {...user, location, lastSeen: now} : user)`.
   */
  function Relocated(users: seq<User>, id: string, location: Location, now: int): (r: seq<User>)
    ensures |r| == |users|
    ensures forall i :: 0 <= i < |users| && users[i].id != id ==> r[i] == users[i]
    ensures forall i :: 0 <= i < |users| && users[i].id == id ==>
      r[i] == users[i].(location := Some(location), lastSeen := now)
  {
    if users == [] then []
    else
      var head := if users[0].id == id then users[0].(location := Some(location), lastSeen := now) else users[0];
      [head] + Relocated(users[1..], id, location, now)
  }

  // ---------------------------------------------------------------------------------------
  // Socket event handlers

  /** `room-joined`: the map screen, with the room's code and users as the server sent them. */
  function OnRoomJoined(prev: AppState, roomCode: string, users: seq<User>): (r: AppState)
    ensures r.currentScreen == MapScreen
    ensures r.roomCode == Some(roomCode) && r.users == users
    ensures r.userCount == |r.users|
    ensures r.userName == prev.userName
  {
    prev.(currentScreen := MapScreen, roomCode := Some(roomCode), users := users, userCount := |users|)
  }

  /**
   * `user-joined`: one entry, with no location, goes at the end; the entries before it are
   * untouched. An id already in the list is not checked for.
   */
  function OnUserJoined(prev: AppState, userId: string, userName: string, now: int): (r: AppState)
    ensures |r.users| == |prev.users| + 1
    ensures r.users[..|prev.users|] == prev.users
    ensures r.users[|prev.users|] == User(userId, userName, None, now)
    ensures KeepsAllBut(prev, r, UsersField)
  {
    prev.(users := prev.users + [User(userId, userName, None, now)])
  }

  /** `user-left`: every entry with that id goes; the others keep their relative order. */
  function OnUserLeft(prev: AppState, userId: string): (r: AppState)
    ensures forall u :: u in r.users <==> u in prev.users && u.id != userId
    ensures r.users == Without(prev.users, userId)
    ensures KeepsAllBut(prev, r, UsersField)
  {
    prev.(users := Without(prev.users, userId))
  }

  /**
   * `user-location-updated`: entries with that id get the new location and time; the list
   * keeps its length and every other entry.
   */
  function OnUserLocationUpdated(prev: AppState, userId: string, location: Location, now: int): (r: AppState)
    ensures |r.users| == |prev.users|
    ensures forall i :: 0 <= i < |prev.users| ==>
      r.users[i] == if prev.users[i].id == userId
                    then prev.users[i].(location := Some(location), lastSeen := now)
                    else prev.users[i]
    ensures KeepsAllBut(prev, r, UsersField)
  {
    prev.(users := Relocated(prev.users, userId, location, now))
  }

  /** `user-count-updated`: the count and nothing else. */
  function OnUserCountUpdated(prev: AppState, count: int): (r: AppState)
    ensures r.userCount == count
    ensures KeepsAllBut(prev, r, CountField)
  {
    prev.(userCount := count)
  }

  // ---------------------------------------------------------------------------------------
  // Callbacks

  /** What `handleJoinRoom` does: the state it leaves and the message it sends, if any. */
  datatype JoinOutcome = JoinOutcome(state: AppState, sent: Option<Outgoing>)

  /**
   * `handleJoinRoom`: with a socket, records the name and sends `join-room`; without one,
   * does nothing. `hasSocket` says whether the socket object exists yet.
   */
  function HandleJoinRoom(prev: AppState, hasSocket: bool, roomCode: string, userName: string): (r: JoinOutcome)
    ensures r.sent.Some? <==> hasSocket
    ensures hasSocket ==>
      r.state == prev.(userName := Some(userName)) && r.sent == Some(JoinRoomMessage(roomCode, userName))
    ensures !hasSocket ==> r.state == prev
  {
    if hasSocket then JoinOutcome(prev.(userName := Some(userName)), Some(JoinRoomMessage(roomCode, userName)))
    else JoinOutcome(prev, None)
  }

  /**
   * `handleLocationUpdate`: sends the location under the current room code, only when there
   * is a socket and the code is truthy (present and not the empty string).
   */
  function HandleLocationUpdate(state: AppState, hasSocket: bool, location: Location): (r: Option<Outgoing>)
    ensures r.Some? <==> hasSocket && state.roomCode.Some? && state.roomCode.value != ""
    ensures r.Some? ==> r.value == LocationUpdateMessage(state.roomCode.value, location)
  {
    if hasSocket && state.roomCode.Some? && state.roomCode.value != "" then
      Some(LocationUpdateMessage(state.roomCode.value, location))
    else
      None
  }

  /** `onBack`: back to the welcome screen, keeping the room, the users and the count. */
  function OnBack(prev: AppState): (r: AppState)
    ensures r.currentScreen == Welcome
    ensures KeepsAllBut(prev, r, ScreenField)
  {
    prev.(currentScreen := Welcome)
  }

  // ---------------------------------------------------------------------------------------
  // Properties across updaters

  /** A user that joins and then leaves, and was not listed before, leaves the list as it was. */
  lemma JoinThenLeave(prev: AppState, userId: string, userName: string, now: int)
    requires forall u :: u in prev.users ==> u.id != userId
    ensures OnUserLeft(OnUserJoined(prev, userId, userName, now), userId) == prev
  {
    WithoutAppend(prev.users, [User(userId, userName, None, now)], userId);
  }
}
