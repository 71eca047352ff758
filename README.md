# Friend location tracker: a Dafny model of the room registry and its clients

The tracker lets friends share their positions on a map. A user creates a room over HTTP and
gets back a short code. Others join the room over a socket connection under that code and a
display name. Each member's browser then sends its position, and the server relays it to the
room's other members. The server keeps everything in two in-memory maps:

- `rooms`: a room code maps to a room holding its members, keyed by socket id.
- `userSockets`: a socket id maps to the room it last joined and the name it joined with.

This project models three things:

- **The server registry** (`server/index.js`). `Registry` states each handler as a function
  from the state before it to the state after it and the emits it made, each emit with its
  audience. The handlers are create-room, room query, join-room, location-update and
  disconnect. `Server.Server` is the same process as a class: its map fields and outbox are
  updated in place, and each method is proved to agree with its `Registry` function.
  `RegistryLemmas` proves what the handlers promise:
  - codes are case-insensitive;
  - joining moves a socket out of its previous room and appends it to the new one;
  - who hears which event;
  - the room count equals the audience;
  - rooms are deleted when their last member disconnects;
  - the invariant tying the two maps together survives every request and every run of
    requests.

  `RegistryScenario` walks one session end to end on concrete values.
- **The client's state updaters** (`src/App.tsx`). `App` models the functions passed to
  `setState` by the socket handlers and by the join, location and back callbacks.
  `ClientSync` feeds each client the events addressed to it. It proves that the client's
  user list keeps the room's members in order, with the same ids, names and locations
  (its own location aside), through any run of requests that neither disconnects the client
  nor re-creates its room under the room's code. The count keeps up too, as long as no other
  member leaves the room by joining another one.
- **The map screen's computations** (`src/components/MapView.tsx`). `MapView` models the
  "last seen" text, which users get a marker, and the singular/plural member label.

A socket.io room's membership is taken from the `userSockets` index. The source joins and
leaves a socket.io room exactly where it writes the index entry. The transport also drops a
closing socket from its rooms before `disconnect` runs.

Behaviours of the code as written, each proved:

- **Stale count after a switch.** Another member can leave a client's room by joining a
  different, existing room. The client is then told that member left, but gets no new count,
  so its count stays one too high (`ClientSync.SwitchLeavesCountStale`).
- **Create-room can overwrite a room.** The HTTP handler does not check whether the
  generated code is already taken. Reusing an occupied code empties that room. Its members
  stay indexed to it and are not told (`RegistryLemmas.OverwriteStrandsMembers`,
  `ClientSync.OverwriteLeavesClientStale`).
- **Emptied rooms can outlive their members.** A room left empty by a member joining another
  room is not deleted; only a disconnect deletes an empty room (`RegistryLemmas.JoinLeavesOtherRooms`
  keeps every key).

## Model

| member | source | states |
|---|---|---|
| Text.ToUpper | server/index.js:55 | upper-casing keeps the length, leaves no lower-case letter, keeps every other character and shifts each `a`-`z` to its capital |
| Text.ToUpperFixed | server/index.js:55 | a code that is already upper-case is unchanged by upper-casing |
| Text.ToUpperIdempotent | server/index.js:42 | upper-casing twice equals upper-casing once, so a stored upper-case code is found again |
| Text.NatToString | src/components/MapView.tsx:159 | the rendering of a number in a template string is a non-empty string of digits with no leading zero |
| Text.ParseNatToString | src/components/MapView.tsx:159-162 | reading the rendered digits back gives the number |
| Text.NatToStringInjective | src/components/MapView.tsx:159-162 | different numbers render differently |
| Registry.Remove | server/index.js:69 | deleting a key keeps exactly the entries with other ids, and changes nothing when the id is absent |
| Registry.RemoveAppend | server/index.js:69 | deleting a key from a concatenation deletes it from each part, so the remaining entries keep their insertion order |
| Registry.RemoveIds | server/index.js:69 | after deleting a key, the room's key set is the old one minus that key |
| Registry.RemoveKeepsUnique | server/index.js:127 | deleting a key keeps the remaining keys distinct |
| Registry.RemoveShrinks | server/index.js:127-134 | deleting a present key lowers the map's size by exactly one |
| Registry.Put | server/index.js:79-84 | after setting a key, the new value is stored and the key set gains that key |
| Registry.PutAppends | server/index.js:79-89 | setting a new key appends the entry at the end of the insertion order |
| Registry.PutReplaces | server/index.js:79-84 | setting an existing key replaces its value in place and keeps the size and every other entry |
| Registry.AppendFreshKeepsUnique | server/index.js:79-84 | appending a member under a new key keeps the keys distinct |
| Registry.Find | server/index.js:107 | looking up a present key yields a stored member with that id |
| Registry.Relocate | server/index.js:107-109 | the stored value for the id gets the new location and time; `ClientSync.RelocateKeepsIds` proves the ids stay, and `RegistryLemmas.LocationUpdateMovesOnlySender` that every other entry is unchanged |
| Registry.Channel | server/index.js:70 | the audience of `socket.to(c)` and `io.to(c)` (also lines 93, 99, 112, 128 and 134): exactly the sockets indexed to `c` (`ClientSync.InChannel`); under two-way agreement, exactly the room's members (`RegistryLemmas.CountMatchesChannel`) |
| Registry.CreateRoom | server/index.js:28-37 | the create-room handler; `RegistryLemmas.CreateRoomReplaces`, `CreateRoomKeepsValid`, `CreateFreshRoomKeepsSynced` and `OverwriteStrandsMembers` state what it does |
| Registry.QueryRoom | server/index.js:40-49 | the room query; `RegistryLemmas.QueryRoomIgnoresCase` and `QueryRoomCountsJoined` state its answer |
| Registry.Join | server/index.js:54-100 | the join-room handler; `RegistryLemmas.JoinMissingRoom`, `JoinLeavesOtherRooms`, `JoinAppends`, `JoinNoticesLeave`, `JoinAnnounces`, `JoinSends` and `JoinKeepsValid` state what it does |
| Registry.LocationUpdate | server/index.js:102-118 | the location-update handler; `RegistryLemmas.LocationUpdateIgnoresStrangers`, `LocationUpdateMovesOnlySender` and `LocationUpdateKeepsValid` state what it does |
| Registry.Disconnect | server/index.js:120-143 | the disconnect handler; `RegistryLemmas.DisconnectUnknownIsNoop`, `DisconnectForgets`, `DisconnectLeavesRoom` and `DisconnectKeepsValid` state what it does |
| Registry.LeavePrevious | server/index.js:63-75 | leaving the previous room keeps the set of room codes and the index unchanged |
| RegistryLemmas.MemberIsIndexed | server/index.js:86 | in a valid state every member of a room is indexed back to that room |
| RegistryLemmas.AtMostOneRoom | server/index.js:63-86 | in a valid state a socket is a member of at most one room |
| RegistryLemmas.IdSetSize | server/index.js:45 | a room's size equals the number of distinct socket ids in it |
| RegistryLemmas.CountMatchesChannel | server/index.js:99 | when the index and the rooms agree both ways, the count broadcast equals the audience it is sent to |
| RegistryLemmas.CreateRoomKeepsValid | server/index.js:28-37 | create-room keeps the state valid |
| RegistryLemmas.CreateRoomReplaces | server/index.js:30-34 | create-room stores an empty room under the code, replacing any room there, and changes no other room and not the index |
| RegistryLemmas.CreateFreshRoomKeepsSynced | server/index.js:28-37 | creating a room under an unused code keeps every index entry pointing at a room that lists the socket |
| RegistryLemmas.OverwriteStrandsMembers | server/index.js:29-34 | creating a room under the code of an occupied room empties it and leaves its members indexed to a room that no longer lists them |
| RegistryLemmas.QueryRoomIgnoresCase | server/index.js:40-49 | the room query answers the same for a code and its upper-case form |
| RegistryLemmas.QueryRoomCountsJoined | server/index.js:40-49 | when the index and the rooms agree both ways, the room query reports existence exactly when the upper-cased code is stored, with the number of sockets in that socket.io room |
| RegistryLemmas.JoinIgnoresCase | server/index.js:54-56 | join-room behaves the same for a code and its upper-case form |
| RegistryLemmas.JoinMissingRoom | server/index.js:56-61 | joining a missing room changes nothing and sends `Room not found` to the joiner only |
| RegistryLemmas.JoinLeavesOtherRooms | server/index.js:63-75 | a join keeps every room code, including an emptied previous room, and removes the joiner from every other room |
| RegistryLemmas.JoinAppends | server/index.js:77-86 | after a join the joiner is at the end of the new room, not elsewhere in it, and is indexed to it under its name |
| RegistryLemmas.JoinNoticesLeave | server/index.js:63-75 | a join that leaves an existing previous room first sends `user-left` to that room's other sockets, otherwise nothing before the three join emits |
| RegistryLemmas.JoinSends | server/index.js:63-99 | a join's emits are those of leaving the previous room followed by the snapshot, `user-joined` and the count, with their audiences |
| RegistryLemmas.JoinAnnounces | server/index.js:88-99 | a join ends with the snapshot to the joiner, `user-joined` to the rest of the room and the new size to the whole room, and every count it sends goes to the new room |
| RegistryLemmas.MoveKeepsValid | server/index.js:63-86 | moving a member out of its old room and to the end of a new one keeps the state valid |
| RegistryLemmas.JoinKeepsValid | server/index.js:54-100 | join-room keeps the state valid |
| RegistryLemmas.JoinKeepsSynced | server/index.js:54-100 | join-room keeps every index entry pointing at a room that lists the socket |
| RegistryLemmas.LocationUpdateIgnoresCase | server/index.js:102-104 | a location update behaves the same for a code and its upper-case form |
| RegistryLemmas.LocationUpdateIgnoresStrangers | server/index.js:106 | an update for a missing room, or from a socket that is not a member, changes nothing and sends nothing |
| RegistryLemmas.LocationUpdateMovesOnlySender | server/index.js:106-116 | a member's update changes only its own location and time, and sends its name and position to the room's other sockets |
| RegistryLemmas.SameRosterKeepsValid | server/index.js:106-109 | changing members' fields in place without changing ids or names keeps both invariants |
| RegistryLemmas.LocationUpdateKeepsValid | server/index.js:102-118 | a location update keeps both invariants |
| RegistryLemmas.DisconnectUnknownIsNoop | server/index.js:123-124 | disconnecting a socket that never joined changes nothing and sends nothing |
| RegistryLemmas.DisconnectForgets | server/index.js:123-141 | a disconnect drops the socket's index entry, deletes no other room and leaves the socket in no room |
| RegistryLemmas.DisconnectLeavesRoom | server/index.js:125-139 | a disconnect sends `user-left` and the new size to the room's other sockets, and deletes the room exactly when it is left empty |
| RegistryLemmas.DisconnectKeepsValid | server/index.js:120-143 | a disconnect keeps both invariants |
| RegistryLemmas.HandleKeepsValid | server/index.js:28-143 | every handler keeps the state valid |
| RegistryLemmas.RunKeepsValid | server/index.js:19-20 | any sequence of requests keeps the state valid |
| RegistryLemmas.RunKeepsSynced | server/index.js:19-20 | any sequence of requests without an overwriting create-room keeps the index and the rooms agreeing both ways |
| RegistryScenario.UpperCode | server/index.js:55 | `ab12` upper-cases to `AB12` |
| RegistryScenario.FirstJoin | server/index.js:54-100 | the first join under a lower-case spelling stores the member and sends the snapshot and the count 1 to the joiner alone |
| RegistryScenario.AliceAloneIsValid | server/index.js:79-86 | a one-member room with its index entry is valid |
| RegistryScenario.UpperStored | server/index.js:55 | the stored code `AB12` is its own upper-case form |
| RegistryScenario.BothInChannel | server/index.js:93-99 | with both sockets indexed to `AB12`, the room's audience is both of them |
| RegistryScenario.SecondJoinRooms | server/index.js:79-84 | after the second join the room lists both members in join order |
| RegistryScenario.SecondJoinIndex | server/index.js:86 | after the second join both sockets are indexed to the room under their names |
| RegistryScenario.SecondJoinNext | server/index.js:77-86 | the state after the second join is that one room with both members, and both index entries |
| RegistryScenario.SecondJoinSent | server/index.js:88-99 | the second join sends the two-member snapshot to the joiner, `user-joined` to the first member and the count 2 to both |
| RegistryScenario.SecondJoin | server/index.js:79-99 | a second join lists both members in join order, tells the first member, and sends the count 2 to both |
| RegistryScenario.BothValid | server/index.js:79-86 | a two-member room with both index entries is valid |
| RegistryScenario.AliceMoves | server/index.js:106-116 | a location update reaches the other member only |
| RegistryScenario.BobLeaves | server/index.js:123-141 | a disconnect tells the remaining member and sends the count 1, and the room stays |
| RegistryScenario.AliceLeaves | server/index.js:123-141 | the last disconnect deletes the room and leaves both maps empty |
| Server.Server.constructor | server/index.js:19-20 | the server starts with both maps empty, a valid state, and nothing sent |
| Server.Server.CreateRoom | server/index.js:28-37 | the in-place create-room leaves the state the create-room function gives, sends no socket event and answers with an empty room's code |
| Server.Server.QueryRoom | server/index.js:40-49 | the query answers from the stored maps, exists exactly when the upper-cased code is stored, and reports its size |
| Server.Server.LeavePreviousRoom | server/index.js:63-75 | the in-place first half of join-room leaves the state and appends the emit that leaving the previous room gives |
| Server.Server.JoinRoom | server/index.js:54-100 | the in-place join handler leaves the state and appends the emits the join function gives, and keeps the state valid |
| Server.Server.UpdateLocation | server/index.js:102-118 | the in-place location handler leaves the state and appends the emits the location function gives, and keeps the state valid |
| Server.Server.Disconnect | server/index.js:120-143 | the in-place disconnect handler leaves the state and appends the emits the disconnect function gives, and keeps the state valid |
| App.Without | src/App.tsx:59 | filtering by id keeps exactly the entries with other ids, and changes nothing when the id is absent |
| App.WithoutAppend | src/App.tsx:59 | filtering a concatenation filters each part and keeps the order |
| App.WithoutIdempotent | src/App.tsx:56-61 | a second `user-left` for the same id removes nothing more |
| App.Relocated | src/App.tsx:66-68 | mapping over the users keeps the length, updates location and time on entries with the id and keeps every other entry |
| App.OnRoomJoined | src/App.tsx:39-47 | `room-joined` shows the map with the received code and users, a count equal to their number, and keeps the name |
| App.OnUserJoined | src/App.tsx:49-54 | `user-joined` appends one entry without a location after the unchanged list and changes no other field |
| App.OnUserLeft | src/App.tsx:56-61 | `user-left` keeps exactly the entries with other ids, in order, and changes no other field |
| App.OnUserLocationUpdated | src/App.tsx:63-70 | `user-location-updated` keeps the list's length, updates location and time on entries with the id, keeps the rest, and changes no other field |
| App.OnUserCountUpdated | src/App.tsx:72-74 | `user-count-updated` sets the count and changes no other field |
| App.HandleJoinRoom | src/App.tsx:85-90 | with a socket the name is recorded and `join-room` is sent; without one nothing changes and nothing is sent |
| App.HandleLocationUpdate | src/App.tsx:92-96 | a location is sent, under the current code, exactly when there is a socket and a non-empty room code |
| App.OnBack | src/App.tsx:109 | going back shows the welcome screen and keeps the room, the users and the count |
| App.JoinThenLeave | src/App.tsx:49-61 | a user that was not listed, joining and then leaving, leaves the state as it was |
| ClientSync.ToUsers | src/App.tsx:39-47 | the `users` list of `room-joined` as the client stores it agrees with the room's members: same length, and position by position the same id, name and location |
| ClientSync.Receive | src/App.tsx:39-78 | each server event goes to its handler's updater, and `error`, which only raises an alert, leaves the state unchanged; `ClientSync.RunTracks` states what a run of them does |
| ClientSync.InboxAppend | server/index.js:88-99 | the events a socket receives from two batches of emits are those of the first followed by those of the second |
| ClientSync.ReceiveAllAppend | src/App.tsx:39-74 | handling two batches of events in turn equals handling their concatenation |
| ClientSync.AgreeWithout | src/App.tsx:56-61 | dropping one id from the client's list and from the room keeps them agreeing |
| ClientSync.AgreeRelocate | src/App.tsx:63-70 | relocating the same id in the client's list and in the room keeps them agreeing |
| ClientSync.AgreeOwnLocation | server/index.js:112 | the room's copy of a client's own location may change without breaking agreement, since it is never echoed back |
| ClientSync.JoinInbox | server/index.js:63-99 | a join sends a socket, in order: the leave if it shared the joiner's old room, the snapshot if it is the joiner, `user-joined` and the count if it is in the new room |
| ClientSync.OwnJoinInbox | server/index.js:88-99 | a socket's own successful join reaches it as the snapshot of the room followed by its size |
| ClientSync.SnapshotView | src/App.tsx:39-47 | a snapshot followed by its count gives a view of that room's code, members and size |
| ClientSync.LeaveInbox | server/index.js:64-74 | leaving the previous room sends a socket `user-left` exactly when it is one of that room's other sockets |
| ClientSync.OwnJoinSetsView | src/App.tsx:39-74 | after its own join a client lists the room's members and shows the room's size |
| ClientSync.StartAndJoin | src/App.tsx:27-47 | a client starting from the initial state that asks to join an existing room ends up on the map screen, with the name it gave, in step with the room in list and count |
| ClientSync.JoinInboxOther | server/index.js:63-99 | another socket's join sends the leave if it shared the joiner's old room, then `user-joined` and the count if the joiner entered this socket's room |
| ClientSync.OtherJoinView | src/App.tsx:49-74 | on plain lists: the client drops the joiner if told it left, then appends it if it arrived |
| ClientSync.JoinOtherTracks | server/index.js:54-100 | another socket's join keeps a client's list in step with its room; the count stays in step unless the joiner switched away, and then it is unchanged |
| ClientSync.SwitchLeavesCountStale | server/index.js:63-75 | when another member switches to a different room, the client's list still matches but its count is one more than the room's size |
| ClientSync.RelocateKeepsIds | server/index.js:108-109 | a location update does not change a room's set of ids |
| ClientSync.LocationInbox | server/index.js:112-116 | a location update reaches exactly the other sockets of the sender's room |
| ClientSync.LocationView | src/App.tsx:63-70 | on plain lists: a client that hears a location update, or is the sender and does not, still agrees with the room |
| ClientSync.LocationTracks | server/index.js:102-118 | any socket's location update, the client's own included, keeps its list and count in step |
| ClientSync.DisconnectInboxOther | server/index.js:128-134 | another socket's disconnect sends a client the leave and the new size exactly when they shared a room |
| ClientSync.LeaveCountView | src/App.tsx:56-74 | on plain lists: a leave followed by the new size keeps the client agreeing with the room and its size |
| ClientSync.DisconnectOtherTracks | server/index.js:120-143 | another socket's disconnect keeps a client's list and count in step |
| ClientSync.CreateOtherTracks | server/index.js:28-37 | creating a room under another code keeps a client's view in step |
| ClientSync.OverwriteLeavesClientStale | server/index.js:28-37 | creating a room under the code of a client's room sends it nothing and leaves its list out of step |
| ClientSync.OwnJoinTracks | server/index.js:54-100 | a client's own successful join puts its list and count in step with the new room; a failed join leaves the server state and the client's view unchanged, so being in step carries over |
| ClientSync.HandleTracks | server/index.js:28-143 | any allowed request keeps a client's list in step, and its count unless another member switches away |
| ClientSync.RunTracks | server/index.js:28-143 | a client in step stays in step through any run of allowed requests: its list always, and its count while nobody switches away from its room |
| MapView.Bucket | src/components/MapView.tsx:153-162 | "just now" exactly below one minute; minutes in 1-59, hours in 1-23, days at least 1 |
| MapView.FormatLastSeen | src/components/MapView.tsx:153-163 | the text is "Just now" exactly when less than a minute has passed; `MapView.FormatLastSeenText` states the other three texts |
| MapView.Render | src/components/MapView.tsx:158-162 | the four texts; `MapView.RenderStartsWithDigit`, `RenderReadsBack` and `FormatLastSeenText` state them |
| MapView.FormatLastSeenText | src/components/MapView.tsx:159-162 | from one minute up to an hour the text is the whole minutes then `m ago`; up to a day, the whole hours then `h ago`; beyond, the whole days then `d ago` |
| MapView.RenderStartsWithDigit | src/components/MapView.tsx:158-162 | every text but "Just now" starts with a digit, so no other text is mistaken for it |
| MapView.BucketRanges | src/components/MapView.tsx:156-162 | each bucket covers one range of elapsed time and shows it rounded down in its unit |
| MapView.FloorTwice | src/components/MapView.tsx:156-162 | whole hours of whole minutes are whole hours, and whole days of whole hours are whole days |
| MapView.BucketMonotone | src/components/MapView.tsx:153-163 | more elapsed time never shows a shorter time |
| MapView.RenderReadsBack | src/components/MapView.tsx:159-162 | the number in the text reads back as the bucket's value |
| MapView.HasMarker | src/components/MapView.tsx:111 | a user gets a marker when it has a location and its id is not `current-user`; `MapView.Markers` states the selection |
| MapView.Markers | src/components/MapView.tsx:110-111 | markers are drawn for exactly the users with a location whose id is not the local placeholder |
| MapView.MemberLabel | src/components/MapView.tsx:179 | the label is "member" exactly for a count of one and "members" otherwise |

## Left out

- Express, HTTP routing, CORS and JSON bodies are left out. Each handler is modelled from
  its parsed inputs to its state change and its answer.
- socket.io's transport, connection events and message delivery are left out. An emit is an
  event plus the set of sockets it is addressed to. Delivery is assumed to be reliable and in
  order.
- Console logging is left out.
- `generateRoomCode` is random, so its result is a parameter of create-room. The model
  allows any code. Nothing checks for collisions, which is why an occupied room can be
  overwritten. The source can also give codes shorter than six characters; this is not
  modelled.
- `new Date()` on the server and on the client becomes integer time-stamp parameters. A
  client uses one clock reading for all the events of one batch.
- Serialising dates into JSON is left out. The client keeps a member's `lastSeen` as the
  server sent it.
- Latitude and longitude are opaque reals, passed through unchanged.
- Text.ToUpper: handles ASCII letters only. `toUpperCase` also maps non-ASCII letters and can
  change a string's length: a typed code holding `ſ` or `ı` would fold to `S` or `I` on the
  server. Generated codes are ASCII, and the client upper-cases what the user types before
  sending it (src/components/WelcomeScreen.tsx:158), so the server's own upper-casing meets
  no letter that the ASCII model misses for codes sent by that client.
- Registry.Join, Registry.LocationUpdate: modelled for the payloads the client sends, a
  string `roomCode` and a `{lat, lng}` location. A `join-room` or `location-update` message
  with no payload or a non-string `roomCode` throws a TypeError at the destructuring or at
  `roomCode.toUpperCase()` (server/index.js:54-55 and 102-103), and nothing catches it; the
  model has no such failure. A `location` of any other shape, `null` included, is stored and
  relayed as is (server/index.js:108 and 115), and a `null` one removes that member's marker
  (src/components/MapView.tsx:111). `Registry.LocationUpdate` always stores `Some(location)`
  of a well-formed location, so it does not express that.
- MapView.FormatLastSeen: takes the elapsed milliseconds as a parameter instead of reading the
  clock. It uses integer floor division, which equals `Math.floor` of the float quotient for
  whole milliseconds.
- The client's `error` handler only calls `alert`, so the model leaves the state unchanged.
- The React component lifecycle is left out: `useEffect`, socket creation and cleanup, and
  re-rendering. Whether a socket exists is a parameter of the callbacks.
- The parts of `MapView.tsx` that draw or talk to the browser are left out: Google Maps
  loading, the current-user marker, geolocation, the clipboard, the users panel and all
  layout.
- Apart from the upper-casing of the typed code, `WelcomeScreen.tsx` is not part of this model.
- Concurrency is left out. Node runs handlers one at a time, so a run of requests is a
  sequence of steps.
- ClientSync.RunTracks: covers every request except the client's own disconnect and a
  create-room that reuses the code of the client's room. After its own disconnect a client
  has no room. After an overwrite its view is stale (`ClientSync.OverwriteLeavesClientStale`).
  The count claim also excludes another member switching away
  (`ClientSync.SwitchLeavesCountStale`).
