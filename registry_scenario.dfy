/**
 * One session end to end: a room is created, two sockets join it, one shares a location,
 * and both disconnect. Each step states who hears what and what is left.
 */
module RegistryScenario {
  import opened Common
  import opened Text
  import opened Registry
  import opened RegistryLemmas

  const Alice: Member := Member("c1", "Alice", None, 1)
  const Bob: Member := Member("c2", "Bob", None, 2)
  const Here: Location := Location(1.0, 2.0)

  lemma UpperCode()
    ensures ToUpper("ab12") == "AB12"
  {
    assert ToUpper("2") == "2";
    assert ToUpper("12") == "12";
    assert ToUpper("b12") == "B12";
  }

  lemma UpperStored()
    ensures ToUpper("AB12") == "AB12"
  {
    ToUpperFixed("AB12");
  }

  /** Alice joins the new room `AB12` under a lower-case spelling of its code. */
  lemma {:induction false} FirstJoin()
    ensures var created := CreateRoom(Empty, "AB12", 0);
      Join(created, "c1", "ab12", "Alice", 1) ==
        Step(State(map["AB12" := Room("AB12", [Alice], 0)], map["c1" := Binding("AB12", "Alice")]),
             [Delivery(RoomJoined("AB12", [Alice]), {"c1"}),
              Delivery(UserJoined("c1", "Alice"), {}),
              Delivery(UserCountUpdated(1), {"c1"})])
  {
    UpperCode();
    var created := CreateRoom(Empty, "AB12", 0);
    assert Valid(created);
    var r := Join(created, "c1", "ab12", "Alice", 1);
    JoinAppends(created, "c1", "ab12", "Alice", 1);
    JoinLeavesOtherRooms(created, "c1", "ab12", "Alice", 1);
    JoinNoticesLeave(created, "c1", "ab12", "Alice", 1);
    JoinAnnounces(created, "c1", "ab12", "Alice", 1);
    var index := map["c1" := Binding("AB12", "Alice")];
    assert r.next.userSockets == index;
    assert r.next.rooms == map["AB12" := Room("AB12", [Alice], 0)];
    assert Channel(index, "AB12") == {"c1"};
    assert |r.sent| == 3;
    assert r.sent[0] == Delivery(RoomJoined("AB12", [Alice]), {"c1"});
    assert r.sent[1] == Delivery(UserJoined("c1", "Alice"), {});
    assert r.sent[2] == Delivery(UserCountUpdated(1), {"c1"});
  }

  lemma AliceAloneIsValid()
    ensures Valid(State(map["AB12" := Room("AB12", [Alice], 0)], map["c1" := Binding("AB12", "Alice")]))
  {
    assert forall m :: m in [Alice] ==> m == Alice;
  }

  const AliceAlone: State := State(map["AB12" := Room("AB12", [Alice], 0)], map["c1" := Binding("AB12", "Alice")])
  const BothIndex: map<SocketId, Binding> := map["c1" := Binding("AB12", "Alice"), "c2" := Binding("AB12", "Bob")]

  lemma BothInChannel()
    ensures Channel(BothIndex, "AB12") == {"c1", "c2"}
  {
  }

  /** After Bob's join both are members of the room, in join order. */
  lemma SecondJoinRooms()
    ensures Join(AliceAlone, "c2", "AB12", "Bob", 2).next.rooms == map["AB12" := Room("AB12", [Alice, Bob], 0)]
  {
    UpperStored();
    assert "c2" !in IdSet([Alice]);
    PutAppends([Alice], Bob);
    var left := LeavePrevious(AliceAlone, "c2");
    assert left == Step(AliceAlone, []);
    var room := left.next.rooms["AB12"];
    assert room == Room("AB12", [Alice], 0);
    var users := Put(room.users, Member("c2", "Bob", None, 2));
    assert users == [Alice, Bob];
    assert Join(AliceAlone, "c2", "AB12", "Bob", 2).next.rooms == left.next.rooms["AB12" := room.(users := users)];
  }

  /** After Bob's join both are indexed to the room under their names. */
  lemma SecondJoinIndex()
    ensures Join(AliceAlone, "c2", "AB12", "Bob", 2).next.userSockets == BothIndex
  {
    UpperStored();
  }

  lemma SecondJoinNext()
    ensures Join(AliceAlone, "c2", "AB12", "Bob", 2).next ==
      State(map["AB12" := Room("AB12", [Alice, Bob], 0)], BothIndex)
  {
    SecondJoinRooms();
    SecondJoinIndex();
  }

  /** Bob gets both members, Alice hears of him, both get the count 2. */
  lemma SecondJoinSent()
    ensures Join(AliceAlone, "c2", "AB12", "Bob", 2).sent ==
      [Delivery(RoomJoined("AB12", [Alice, Bob]), {"c2"}),
       Delivery(UserJoined("c2", "Bob"), {"c1"}),
       Delivery(UserCountUpdated(2), {"c1", "c2"})]
  {
    UpperStored();
    SecondJoinNext();
    BothInChannel();
    JoinSends(AliceAlone, "c2", "AB12", "Bob", 2);
    assert LeavePrevious(AliceAlone, "c2") == Step(AliceAlone, []);
    assert {"c1", "c2"} - {"c2"} == {"c1"};
    assert |[Alice, Bob]| == 2;
  }

  /** Bob joins: he gets both members, Alice hears of him, both get the count 2. */
  lemma {:induction false} SecondJoin()
    ensures var st := State(map["AB12" := Room("AB12", [Alice], 0)], map["c1" := Binding("AB12", "Alice")]);
      Join(st, "c2", "AB12", "Bob", 2) ==
        Step(State(map["AB12" := Room("AB12", [Alice, Bob], 0)],
                   map["c1" := Binding("AB12", "Alice"), "c2" := Binding("AB12", "Bob")]),
             [Delivery(RoomJoined("AB12", [Alice, Bob]), {"c2"}),
              Delivery(UserJoined("c2", "Bob"), {"c1"}),
              Delivery(UserCountUpdated(2), {"c1", "c2"})])
  {
    SecondJoinNext();
    SecondJoinSent();
  }

  lemma BothValid()
    ensures Valid(State(map["AB12" := Room("AB12", [Alice, Bob], 0)],
                        map["c1" := Binding("AB12", "Alice"), "c2" := Binding("AB12", "Bob")]))
  {
    assert forall m :: m in [Alice, Bob] ==> m == Alice || m == Bob;
    assert UniqueIds([Alice, Bob]);
  }

  /** Alice shares a location: Bob hears it, Alice does not. */
  lemma {:induction false} AliceMoves()
    ensures var index := map["c1" := Binding("AB12", "Alice"), "c2" := Binding("AB12", "Bob")];
      var st := State(map["AB12" := Room("AB12", [Alice, Bob], 0)], index);
      LocationUpdate(st, "c1", "AB12", Here, 3) ==
        Step(State(map["AB12" := Room("AB12", [Alice.(location := Some(Here), lastSeen := 3), Bob], 0)], index),
             [Delivery(UserLocationUpdated("c1", "Alice", Here), {"c2"})])
  {
    UpperStored();
    var index := map["c1" := Binding("AB12", "Alice"), "c2" := Binding("AB12", "Bob")];
    assert Alice in [Alice, Bob];
    assert "c1" in IdSet([Alice, Bob]);
    assert Find([Alice, Bob], "c1") == Alice;
    var moved := [Alice.(location := Some(Here), lastSeen := 3), Bob];
    assert Relocate([Alice, Bob], "c1", Here, 3) == moved;
    assert Channel(index, "AB12") == {"c1", "c2"};
    assert {"c1", "c2"} - {"c1"} == {"c2"};
  }

  /** Bob disconnects: Alice hears that he left and the count 1; the room stays. */
  lemma {:induction false} BobLeaves()
    ensures var moved := Alice.(location := Some(Here), lastSeen := 3);
      var st := State(map["AB12" := Room("AB12", [moved, Bob], 0)],
                      map["c1" := Binding("AB12", "Alice"), "c2" := Binding("AB12", "Bob")]);
      Disconnect(st, "c2") ==
        Step(State(map["AB12" := Room("AB12", [moved], 0)], map["c1" := Binding("AB12", "Alice")]),
             [Delivery(UserLeft("c2", "Bob"), {"c1"}),
              Delivery(UserCountUpdated(1), {"c1"})])
  {
    var moved := Alice.(location := Some(Here), lastSeen := 3);
    var index := map["c1" := Binding("AB12", "Alice"), "c2" := Binding("AB12", "Bob")];
    assert index - {"c2"} == map["c1" := Binding("AB12", "Alice")];
    assert Channel(map["c1" := Binding("AB12", "Alice")], "AB12") == {"c1"};
    assert Remove([moved, Bob], "c2") == [moved];
  }

  /** Alice disconnects last: the room is deleted and nobody is left to hear it. */
  lemma {:induction false} AliceLeaves()
    ensures var moved := Alice.(location := Some(Here), lastSeen := 3);
      var st := State(map["AB12" := Room("AB12", [moved], 0)], map["c1" := Binding("AB12", "Alice")]);
      Disconnect(st, "c1") ==
        Step(Empty, [Delivery(UserLeft("c1", "Alice"), {}), Delivery(UserCountUpdated(0), {})])
  {
    var moved := Alice.(location := Some(Here), lastSeen := 3);
    assert map["c1" := Binding("AB12", "Alice")] - {"c1"} == map[];
    assert map["AB12" := Room("AB12", [moved], 0)] - {"AB12"} == map[];
    assert Remove([moved], "c1") == [];
    assert Channel(map[], "AB12") == {};
  }
}
