/**
 * The server process of server/index.js: the two module-level maps, updated in place by the
 * HTTP and socket handlers, and the emits those handlers make, collected in `outbox` in the
 * order they are made. Each method does what its handler does, step by step, and is proved
 * to agree with the handler's function in `Registry`, whose properties `RegistryLemmas`
 * proves.
 */
module Server {
  import opened Common
  import opened Text
  import opened Registry
  import opened RegistryLemmas

  class Server {
    var rooms: map<Code, Room>
    var userSockets: map<SocketId, Binding>
    var outbox: seq<Delivery>

    function Snapshot(): State
      reads this
    {
      State(rooms, userSockets)
    }

    ghost predicate Valid()
      reads this
    {
      Registry.Valid(Snapshot())
    }

    /** Both maps start empty and nothing has been sent. */
    constructor ()
      ensures Valid() && Snapshot() == Empty && outbox == []
    {
      rooms := map[];
      userSockets := map[];
      outbox := [];
    }

    /** `POST /api/create-room`, with the generated code passed in; answers with the code. */
    method CreateRoom(code: Code, now: int) returns (roomCode: Code)
      requires Valid()
      modifies this
      ensures Valid()
      ensures Snapshot() == Registry.CreateRoom(old(Snapshot()), code, now)
      ensures outbox == old(outbox)
      ensures roomCode == code && rooms[roomCode].users == []
    {
      CreateRoomKeepsValid(Snapshot(), code, now);
      rooms := rooms[code := Room(code, [], now)];
      roomCode := code;
    }

    /** `GET /api/room/:code`. */
    method QueryRoom(code: string) returns (info: RoomInfo)
      ensures info == Registry.QueryRoom(Snapshot(), code)
      ensures info.Exists? <==> ToUpper(code) in rooms
      ensures info.Exists? ==> info.userCount == |rooms[ToUpper(code)].users|
    {
      var key := ToUpper(code);
      if key in rooms {
        info := Exists(|rooms[key].users|);
      } else {
        info := Missing;
      }
    }

    /**
     * The first half of `join-room`: if `s` is indexed to a room that still exists, `s` is
     * deleted from its users and the room's other sockets are told it left.
     */
    method LeavePreviousRoom(s: SocketId)
      modifies this
      ensures var step := Registry.LeavePrevious(old(Snapshot()), s);
        Snapshot() == step.next && outbox == old(outbox) + step.sent
    {
      if s in userSockets {
        var previous := userSockets[s];
        if previous.roomCode in rooms {
          var prevRoom := rooms[previous.roomCode];
          rooms := rooms[previous.roomCode := prevRoom.(users := Remove(prevRoom.users, s))];
          outbox := outbox + [Delivery(UserLeft(s, previous.userName), Channel(userSockets, previous.roomCode) - {s})];
        }
      }
    }

    /** The `join-room` handler of socket `s`. */
    method JoinRoom(s: SocketId, roomCode: string, userName: string, now: int)
      requires Valid()
      modifies this
      ensures Valid()
      ensures var step := Registry.Join(old(Snapshot()), s, roomCode, userName, now);
        Snapshot() == step.next && outbox == old(outbox) + step.sent
    {
      ghost var before := Snapshot();
      JoinKeepsValid(before, s, roomCode, userName, now);
      var code := ToUpper(roomCode);
      if code !in rooms {
        outbox := outbox + [Delivery(Error(RoomNotFound), {s})];
        return;
      }
      LeavePreviousRoom(s);
      var room := rooms[code];
      room := room.(users := Put(room.users, Member(s, userName, None, now)));
      rooms := rooms[code := room];
      userSockets := userSockets[s := Binding(code, userName)];
      outbox := outbox + [Delivery(RoomJoined(code, room.users), {s})];
      outbox := outbox + [Delivery(UserJoined(s, userName), Channel(userSockets, code) - {s})];
      outbox := outbox + [Delivery(UserCountUpdated(|room.users|), Channel(userSockets, code))];
    }

    /** The `location-update` handler of socket `s`. */
    method UpdateLocation(s: SocketId, roomCode: string, location: Location, now: int)
      requires Valid()
      modifies this
      ensures Valid()
      ensures var step := Registry.LocationUpdate(old(Snapshot()), s, roomCode, location, now);
        Snapshot() == step.next && outbox == old(outbox) + step.sent
    {
      LocationUpdateKeepsValid(Snapshot(), s, roomCode, location, now);
      var code := ToUpper(roomCode);
      if code in rooms && s in IdSet(rooms[code].users) {
        var room := rooms[code];
        var user := Find(room.users, s);
        rooms := rooms[code := room.(users := Relocate(room.users, s, location, now))];
        outbox := outbox + [Delivery(UserLocationUpdated(s, user.name, location), Channel(userSockets, code) - {s})];
      }
    }

    /** The `disconnect` handler of socket `s`. */
    method Disconnect(s: SocketId)
      requires Valid()
      modifies this
      ensures Valid()
      ensures var step := Registry.Disconnect(old(Snapshot()), s);
        Snapshot() == step.next && outbox == old(outbox) + step.sent
    {
      DisconnectKeepsValid(Snapshot(), s);
      if s in userSockets {
        var userRoom := userSockets[s];
        if userRoom.roomCode in rooms {
          var room := rooms[userRoom.roomCode];
          var users := Remove(room.users, s);
          rooms := rooms[userRoom.roomCode := room.(users := users)];
          var audience := Channel(userSockets - {s}, userRoom.roomCode);
          outbox := outbox + [Delivery(UserLeft(s, userRoom.userName), audience)];
          outbox := outbox + [Delivery(UserCountUpdated(|users|), audience)];
          if |users| == 0 {
            rooms := rooms - {userRoom.roomCode};
          }
        }
        userSockets := userSockets - {s};
      }
    }
  }
}
