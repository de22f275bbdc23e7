/**
 * The shutdown collision is reachable: a run of seven events from the empty
 * server ends in a consistent state where a host's `!cmd shutdown` deletes
 * another live room.
 */
module CollisionTrace {
  import opened Wrappers
  import opened Protocol
  import opened Text
  import opened RoomState
  import opened Lifecycle
  import opened Gateway
  import opened LifecycleProperties
  import opened GatewayProperties

  /** One inbound record from `c` takes `s` to `s'` without a throw. */
  ghost predicate Step(s: State, c: ConnId, ev: Inbound, s': State) {
    && WellFormed(s) && c in s.clients
    && var o := Dispatch(s, c, ev);
       !o.crashed && o.st == s'
  }

  /**
   * Connections 1 and 2 arrive and take the names "bob" and "carol"; bob creates
   * room "bob"; carol joins it; bob creates room "lobby" (and so leaves "bob").
   * The result is `CollisionStart`, which is consistent, in which bob's
   * `!cmd shutdown` collides, and where carol sits in the room named "bob".
   */
  lemma CollisionIsReachable()
    ensures Connect(Connect(Empty, 1), 2) == Guests()
    ensures Step(Guests(), 1, SetUsername(Some("bob")), BobNamed())
    ensures Step(BobNamed(), 2, SetUsername(Some("carol")), BothNamed())
    ensures Step(BothNamed(), 1, CreateRoom(Some("bob")), BobHosts())
    ensures Step(BobHosts(), 2, JoinRoom(Some("bob")), BothInBob())
    ensures Step(BothInBob(), 1, CreateRoom(Some("lobby")), CollisionStart())
    ensures Consistent(CollisionStart())
    ensures ShutdownCollides(CollisionStart(), 1, ChatText(Some("!cmd shutdown")))
    ensures 2 in CollisionStart().rooms["bob"].users
  {
    StepNames();
    StepCreateBob();
    StepJoinBob();
    StepCreateLobby();
    CollisionStartConsistent();
    CollisionStartCollides();
  }

  /** Two connections, neither named yet. */
  function Guests(): State {
    State(map[1 := FreshSession, 2 := FreshSession], map[])
  }

  /** Connection 1 is named "bob". */
  function BobNamed(): State {
    State(map[1 := ClientData(Some("bob"), None), 2 := FreshSession], map[])
  }

  /** Both connections are named, and there is no room. */
  function BothNamed(): State {
    State(map[1 := ClientData(Some("bob"), None), 2 := ClientData(Some("carol"), None)], map[])
  }

  /** bob hosts and sits alone in room "bob". */
  function BobHosts(): State {
    State(map[1 := ClientData(Some("bob"), Some("bob")), 2 := ClientData(Some("carol"), None)],
      map["bob" := Room("bob", [1], false, {}, [])])
  }

  /** bob and carol are both in room "bob". */
  function BothInBob(): State {
    State(map[1 := ClientData(Some("bob"), Some("bob")), 2 := ClientData(Some("carol"), Some("bob"))],
      map["bob" := Room("bob", [1, 2], false, {}, [])])
  }

  /** "bob" alone in "lobby", which bob hosts, while "carol" sits in a room named "bob". */
  function CollisionStart(): State {
    State(
      map[1 := ClientData(Some("bob"), Some("lobby")), 2 := ClientData(Some("carol"), Some("bob"))],
      map["lobby" := Room("bob", [1], false, {}, []), "bob" := Room("bob", [2], false, {}, [])])
  }

  /** "lobby" has just been created and bob has not left "bob" yet. */
  function LobbyAdded(): State {
    State(map[1 := ClientData(Some("bob"), Some("bob")), 2 := ClientData(Some("carol"), Some("bob"))],
      map["bob" := Room("bob", [1, 2], false, {}, []), "lobby" := NewRoom("bob")])
  }

  /** bob has left "bob" and is about to join "lobby". */
  function BobLeft(): State {
    State(map[1 := ClientData(Some("bob"), None), 2 := ClientData(Some("carol"), Some("bob"))],
      map["bob" := Room("bob", [2], false, {}, []), "lobby" := NewRoom("bob")])
  }

  lemma StepNames()
    ensures Connect(Connect(Empty, 1), 2) == Guests()
    ensures Step(Guests(), 1, SetUsername(Some("bob")), BobNamed())
    ensures Step(BobNamed(), 2, SetUsername(Some("carol")), BothNamed())
  {
    var g := Guests();
    assert WellFormed(g);
    RenameDispatch(g, 1, "bob");
    assert g.clients[1 := g.clients[1].(username := Some("bob"))] == BobNamed().clients;
    var b := BobNamed();
    assert WellFormed(b);
    RenameDispatch(b, 2, "carol");
    assert b.clients[2 := b.clients[2].(username := Some("carol"))] == BothNamed().clients;
  }

  lemma StepCreateBob()
    ensures Step(BothNamed(), 1, CreateRoom(Some("bob")), BobHosts())
  {
    var s := BothNamed();
    var st1 := s.(rooms := map["bob" := NewRoom("bob")]);
    assert s.rooms["bob" := NewRoom("bob")] == st1.rooms;
    assert WellFormed(s) && WellFormed(st1);
    CreateDispatch(s, 1, "bob");
    CreateIsJoin(s, 1, "bob");
    JoinFromNoRoom(st1, 1, "bob");
    BobEntersBob();
  }

  lemma StepJoinBob()
    ensures Step(BobHosts(), 2, JoinRoom(Some("bob")), BothInBob())
  {
    var s := BobHosts();
    assert WellFormed(s) by { assert Distinct([1]); }
    JoinDispatch(s, 2, "bob");
    JoinFromNoRoom(s, 2, "bob");
    CarolEntersBob();
  }

  lemma StepCreateLobby()
    ensures Step(BothInBob(), 1, CreateRoom(Some("lobby")), CollisionStart())
  {
    var s := BothInBob();
    assert WellFormed(s) by { assert Distinct([1, 2]); }
    CreateDispatch(s, 1, "lobby");
    assert s.rooms["lobby" := NewRoom("bob")] == LobbyAdded().rooms;
    assert s.(rooms := s.rooms["lobby" := NewRoom("bob")]) == LobbyAdded();
    StepJoinLobby();
    var j := Join(LobbyAdded(), 1, "lobby");
    assert Create(s, 1, "lobby") == Outcome(j.st, j.out + RoomListUpdate(j.st.rooms), false);
  }

  lemma StepJoinLobby()
    ensures WellFormed(LobbyAdded())
    ensures var j := Join(LobbyAdded(), 1, "lobby"); !j.crashed && j.st == CollisionStart()
  {
    StepLeaveBob();
    BobEntersLobby();
  }

  lemma StepLeaveBob()
    ensures WellFormed(LobbyAdded())
    ensures var l := Leave(LobbyAdded(), 1); !l.crashed && l.st == BobLeft()
  {
    var s := LobbyAdded();
    assert WellFormed(s) by { assert Distinct([1, 2]); }
    BobLeavesBob();
  }

  /** The table updates of the trace, one per step. */
  lemma BobEntersBob()
    ensures AddMember(BothNamed().(rooms := map["bob" := NewRoom("bob")]), 1, "bob") == BobHosts()
  {
    var st1 := BothNamed().(rooms := map["bob" := NewRoom("bob")]);
    assert Insert([], 1) == [1];
    assert st1.clients[1 := st1.clients[1].(currentRoom := Some("bob"))] == BobHosts().clients;
    assert st1.rooms["bob" := st1.rooms["bob"].(users := [1])] == BobHosts().rooms;
  }

  lemma CarolEntersBob()
    ensures AddMember(BobHosts(), 2, "bob") == BothInBob()
  {
    var s := BobHosts();
    assert Insert([1], 2) == [1, 2];
    assert s.clients[2 := s.clients[2].(currentRoom := Some("bob"))] == BothInBob().clients;
    assert s.rooms["bob" := s.rooms["bob"].(users := [1, 2])] == BothInBob().rooms;
  }

  lemma BobLeavesBob()
    ensures Depart(LobbyAdded(), 1, "bob") == BobLeft()
  {
    var s := LobbyAdded();
    assert Without([1, 2], 1) == [2] by { assert [1, 2][1..] == [2]; assert Without([2], 1) == [2]; }
    assert s.clients[1 := s.clients[1].(currentRoom := None)] == BobLeft().clients;
    assert s.rooms["bob" := s.rooms["bob"].(users := [2])] == BobLeft().rooms;
  }

  lemma BobEntersLobby()
    ensures AddMember(BobLeft(), 1, "lobby") == CollisionStart()
  {
    var s := BobLeft();
    assert Insert([], 1) == [1];
    assert s.clients[1 := s.clients[1].(currentRoom := Some("lobby"))] == CollisionStart().clients;
    assert s.rooms["lobby" := s.rooms["lobby"].(users := [1])] == CollisionStart().rooms;
  }

  /** The starting tables satisfy every invariant. */
  lemma CollisionStartConsistent()
    ensures Consistent(CollisionStart())
  {
    var st := CollisionStart();
    assert st.rooms.Keys == {"lobby", "bob"};
    assert st.clients.Keys == {1, 2};
    assert Distinct([1]) && Distinct([2]);
  }

  /** In the starting tables bob's `!cmd shutdown` collides, and carol sits in the room named "bob". */
  lemma CollisionStartCollides()
    ensures ShutdownCollides(CollisionStart(), 1, ChatText(Some("!cmd shutdown")))
    ensures 2 in CollisionStart().rooms["bob"].users
  {
    ShutdownCommandWord();
  }

  /** `!cmd shutdown` is a command line whose command word is `shutdown`. */
  lemma ShutdownCommandWord()
    ensures CommandWord("!cmd shutdown") == Some("shutdown")
    ensures StartsWith("!cmd shutdown", CommandMarker)
  {
    CommandTokens("!cmd", "shutdown", []);
    assert Unsplit(["!cmd", "shutdown"]) == "!cmd shutdown";
  }
}
